/** The plugin generator of src/utils/generator.ts: dispatch on the language, the permission
    grouping its constructor applies to the property bag, and the mapping of a template tree
    to the files written under the target directory. */
module Generator {
  import opened Wrappers
  import Text

  /** A value of the property bag handed to the templates. */
  datatype PropValue =
    | PBool(b: bool)
    | PString(s: string)
    | PList(items: seq<string>)
    | PGroups(groups: seq<PermissionGroup>)

  /** `{ scope, entries }`: an entry is undefined when its permission has no `:`. */
  datatype PermissionGroup = PermissionGroup(scope: string, entries: seq<Option<string>>)

  /** A filesystem path as its segments (what `path.join` builds). */
  type Path = seq<string>

  /** `context`: the property bag and the target directory. */
  datatype Context = Context(props: map<string, PropValue>, target: Path)

  // ---------------------------------------------------------------------------
  // Ordering of scopes

  /** Code-point lexicographic order on strings, standing for `localeCompare(…, "en") < 0`. */
  predicate Less(a: string, b: string)
    decreases |a|
  {
    if a == [] then b != []
    else if b == [] then false
    else if a[0] != b[0] then a[0] < b[0]
    else Less(a[1..], b[1..])
  }

  lemma {:induction false} LessIrreflexive(a: string)
    ensures !Less(a, a)
    decreases |a|
  {
    if a != [] {
      LessIrreflexive(a[1..]);
    }
  }

  lemma {:induction false} LessTransitive(a: string, b: string, c: string)
    requires Less(a, b) && Less(b, c)
    ensures Less(a, c)
    decreases |a|
  {
    if a != [] && b != [] && c != [] && a[0] == b[0] == c[0] {
      LessTransitive(a[1..], b[1..], c[1..]);
    }
  }

  lemma {:induction false} LessTotal(a: string, b: string)
    ensures a == b || Less(a, b) || Less(b, a)
    decreases |a|
  {
    if a != [] && b != [] && a[0] == b[0] {
      LessTotal(a[1..], b[1..]);
      assert a == [a[0]] + a[1..] && b == [b[0]] + b[1..];
    }
  }

  lemma LessAsymmetric(a: string, b: string)
    requires Less(a, b)
    ensures !Less(b, a)
  {
    if Less(b, a) {
      LessTransitive(a, b, a);
      LessIrreflexive(a);
    }
  }

  // ---------------------------------------------------------------------------
  // Splitting a permission

  /** The index of the first `:` of `s`, or `|s|` when there is none. */
  function ColonIndex(s: string): (k: nat)
    ensures k <= |s|
    ensures k < |s| ==> s[k] == ':'
    ensures forall i :: 0 <= i < k ==> s[i] != ':'
  {
    if s == [] || s[0] == ':' then 0 else 1 + ColonIndex(s[1..])
  }

  /** `permission.split(":")[0]`: the text before the first `:`. */
  function ScopeOf(p: string): (scope: string)
    ensures ':' !in scope
    ensures Text.StartsWith(p, scope)
  {
    p[..ColonIndex(p)]
  }

  /** `permission.split(":")[1]`: undefined without a `:`, otherwise the text between the
      first and the second `:` (anything after a second `:` is dropped). */
  function EntryOf(p: string): Option<string> {
    var k := ColonIndex(p);
    if k == |p| then None else Some(ScopeOf(p[k + 1..]))
  }

  /** A permission `scope:entry` (neither part containing `:`, the rest arbitrary) splits into that scope and entry. */
  lemma SplitPermission(scope: string, entry: string, rest: string)
    requires ':' !in scope && ':' !in entry
    requires rest == [] || rest[0] == ':'
    ensures ScopeOf(scope + ":" + entry + rest) == scope
    ensures EntryOf(scope + ":" + entry + rest) == Some(entry)
  {
    var p := scope + ":" + entry + rest;
    ColonAt(p, scope);
    assert p[|scope| + 1..] == entry + rest;
    ColonAt(entry + rest, entry);
  }

  /** `ColonIndex` of a text that starts with a colon-free `s` followed by `:` or nothing. */
  lemma {:induction false} ColonAt(p: string, s: string)
    requires ':' !in s && Text.StartsWith(p, s)
    requires |p| == |s| || p[|s|] == ':'
    ensures ColonIndex(p) == |s|
    decreases |s|
  {
    if s != [] {
      assert p[0] == s[0];
      ColonAt(p[1..], s[1..]);
    }
  }

  /** A permission without `:` is a scope with an undefined entry. */
  lemma NoColon(p: string)
    requires ':' !in p
    ensures ScopeOf(p) == p && EntryOf(p) == None
  {
    ColonAt(p, p);
  }

  // ---------------------------------------------------------------------------
  // Grouping

  /** The entries of the permissions with the given scope, in input order. */
  function EntriesIn(ps: seq<string>, scope: string): seq<Option<string>> {
    if ps == [] then []
    else EntriesIn(ps[..|ps| - 1], scope) + EntryIfIn(ps[|ps| - 1], scope)
  }

  /** The entry of `p` when it has the given scope. */
  function EntryIfIn(p: string, scope: string): seq<Option<string>> {
    if ScopeOf(p) == scope then [EntryOf(p)] else []
  }

  /** A scope no permission has collects no entries. */
  lemma {:induction false} NoEntries(ps: seq<string>, scope: string)
    requires forall p :: p in ps ==> ScopeOf(p) != scope
    ensures EntriesIn(ps, scope) == []
    decreases |ps|
  {
    if ps != [] {
      NoEntries(ps[..|ps| - 1], scope);
    }
  }

  function Scopes(groups: seq<PermissionGroup>): (r: seq<string>)
    ensures |r| == |groups| && forall i :: 0 <= i < |groups| ==> r[i] == groups[i].scope
  {
    seq(|groups|, i requires 0 <= i < |groups| => groups[i].scope)
  }

  predicate DistinctScopes(groups: seq<PermissionGroup>) {
    forall i, j :: 0 <= i < j < |groups| ==> groups[i].scope != groups[j].scope
  }

  predicate SortedByScope(groups: seq<PermissionGroup>) {
    forall i, j :: 0 <= i < j < |groups| ==> !Less(groups[j].scope, groups[i].scope)
  }

  /** What `groupPermissions` promises: one record per distinct scope, sorted by scope,
      each holding the entries of that scope in input order. */
  ghost predicate IsGrouping(ps: seq<string>, groups: seq<PermissionGroup>) {
    && (forall i, j :: 0 <= i < j < |groups| ==> Less(groups[i].scope, groups[j].scope))
    && (forall i :: 0 <= i < |groups| ==> groups[i].entries == EntriesIn(ps, groups[i].scope) && groups[i].entries != [])
    && (forall p :: p in ps ==> ScopeOf(p) in Scopes(groups))
  }

  /** `finale.find((item) => item.scope === scope)`, as an index. */
  function FindScope(groups: seq<PermissionGroup>, scope: string): (r: Option<nat>)
    ensures r.Some? ==> r.value < |groups| && groups[r.value].scope == scope
    ensures r.None? ==> scope !in Scopes(groups)
  {
    if groups == [] then None
    else if groups[0].scope == scope then Some(0)
    else match FindScope(groups[1..], scope)
      case None => None
      case Some(k) => Some(k + 1)
  }

  /** Inserts `g` after every group whose scope is not above its own (a stable insertion). */
  function Insert(g: PermissionGroup, sorted: seq<PermissionGroup>): (r: seq<PermissionGroup>)
    ensures multiset(r) == multiset(sorted) + multiset{g}
  {
    if sorted == [] then [g]
    else if Less(g.scope, sorted[0].scope) then [g] + sorted
    else
      assert sorted == [sorted[0]] + sorted[1..];
      [sorted[0]] + Insert(g, sorted[1..])
  }

  lemma {:induction false} InsertSorted(g: PermissionGroup, sorted: seq<PermissionGroup>)
    requires SortedByScope(sorted)
    ensures SortedByScope(Insert(g, sorted))
    decreases |sorted|
  {
    if sorted != [] {
      if Less(g.scope, sorted[0].scope) {
        forall j | 0 <= j < |sorted| ensures !Less(sorted[j].scope, g.scope) {
          if Less(sorted[j].scope, g.scope) {
            if j == 0 {
              LessAsymmetric(g.scope, sorted[0].scope);
            } else {
              LessTransitive(sorted[j].scope, g.scope, sorted[0].scope);
            }
          }
        }
      } else {
        InsertSorted(g, sorted[1..]);
        var rest := Insert(g, sorted[1..]);
        forall x | x in rest ensures !Less(x.scope, sorted[0].scope) {
          assert x in multiset(rest);
          if x != g {
            assert x in multiset(sorted[1..]);
          }
        }
      }
    }
  }

  lemma InsertDistinct(g: PermissionGroup, sorted: seq<PermissionGroup>)
    requires DistinctScopes(sorted) && g.scope !in Scopes(sorted)
    ensures DistinctScopes(Insert(g, sorted))
    decreases |sorted|
  {
    if sorted != [] && !Less(g.scope, sorted[0].scope) {
      assert Scopes(sorted[1..]) == Scopes(sorted)[1..];
      InsertDistinct(g, sorted[1..]);
      var rest := Insert(g, sorted[1..]);
      forall x | x in rest ensures x.scope != sorted[0].scope {
        assert x in multiset(rest);
        if x != g {
          assert x in multiset(sorted[1..]);
        }
      }
    }
  }

  /** `.sort(…)` by scope: stable, so groups with equal scopes keep their order. */
  function SortByScope(groups: seq<PermissionGroup>): (r: seq<PermissionGroup>)
    ensures multiset(r) == multiset(groups)
  {
    if groups == [] then []
    else
      assert groups == groups[..|groups| - 1] + [groups[|groups| - 1]];
      Insert(groups[|groups| - 1], SortByScope(groups[..|groups| - 1]))
  }

  /** The sort orders by scope and, on distinct scopes, keeps them distinct. */
  lemma {:induction false} SortSortedDistinct(groups: seq<PermissionGroup>)
    ensures SortedByScope(SortByScope(groups))
    ensures DistinctScopes(groups) ==> DistinctScopes(SortByScope(groups))
    decreases |groups|
  {
    if groups != [] {
      var prefix, last := groups[..|groups| - 1], groups[|groups| - 1];
      SortSortedDistinct(prefix);
      var sorted := SortByScope(prefix);
      InsertSorted(last, sorted);
      if DistinctScopes(groups) {
        forall k | 0 <= k < |sorted| ensures sorted[k].scope != last.scope {
          assert sorted[k] in multiset(prefix);
          var m :| 0 <= m < |prefix| && prefix[m] == sorted[k];
          assert groups[m] == prefix[m];
        }
        InsertDistinct(last, sorted);
      }
    }
  }

  /** The callback of the reduce: push the entry onto the group of its scope, or start a new group. */
  function Reducer(finale: seq<PermissionGroup>, permission: string): seq<PermissionGroup> {
    var scope, entry := ScopeOf(permission), EntryOf(permission);
    match FindScope(finale, scope)
    case Some(k) => finale[k := PermissionGroup(scope, finale[k].entries + [entry])]
    case None => finale + [PermissionGroup(scope, [entry])]
  }

  /** What the accumulator holds after the permissions `ps`: one group per scope seen,
      each with the entries of that scope so far. */
  predicate Accumulated(ps: seq<string>, finale: seq<PermissionGroup>) {
    && DistinctScopes(finale)
    && (forall k :: 0 <= k < |finale| ==> finale[k].entries == EntriesIn(ps, finale[k].scope) && finale[k].entries != [])
    && (forall p :: p in ps ==> ScopeOf(p) in Scopes(finale))
  }

  lemma ReducerStep(ps: seq<string>, finale: seq<PermissionGroup>, permission: string)
    requires Accumulated(ps, finale)
    ensures Accumulated(ps + [permission], Reducer(finale, permission))
  {
    var ps' := ps + [permission];
    assert ps'[..|ps'| - 1] == ps;
    ReducerEntries(ps, finale, permission);
    ReducerCovers(ps, finale, permission);
  }

  /** Each group of the new accumulator holds the entries of its scope, the new one included. */
  lemma ReducerEntries(ps: seq<string>, finale: seq<PermissionGroup>, permission: string)
    requires Accumulated(ps, finale)
    ensures var next, ps' := Reducer(finale, permission), ps + [permission];
      && DistinctScopes(next)
      && forall k :: 0 <= k < |next| ==> next[k].entries == EntriesIn(ps', next[k].scope) && next[k].entries != []
  {
    match FindScope(finale, ScopeOf(permission))
    case Some(k) => PushedEntries(ps, finale, permission, k);
    case None => StartedEntries(ps, finale, permission);
  }

  lemma EntriesInSnoc(ps: seq<string>, p: string, scope: string)
    ensures EntriesIn(ps + [p], scope) == EntriesIn(ps, scope) + EntryIfIn(p, scope)
  {
    assert (ps + [p])[..|ps|] == ps;
  }

  /** The entry is pushed onto the group `k` of its scope. */
  lemma PushedEntries(ps: seq<string>, finale: seq<PermissionGroup>, permission: string, k: nat)
    requires Accumulated(ps, finale)
    requires k < |finale| && finale[k].scope == ScopeOf(permission)
    ensures var next := finale[k := PermissionGroup(ScopeOf(permission), finale[k].entries + [EntryOf(permission)])];
      && DistinctScopes(next)
      && forall i :: 0 <= i < |next| ==> next[i].entries == EntriesIn(ps + [permission], next[i].scope) && next[i].entries != []
  {
    var next := finale[k := PermissionGroup(ScopeOf(permission), finale[k].entries + [EntryOf(permission)])];
    forall i | 0 <= i < |next|
      ensures next[i].entries == EntriesIn(ps + [permission], next[i].scope) && next[i].entries != []
    {
      EntriesInSnoc(ps, permission, next[i].scope);
      if i != k {
        assert next[i] == finale[i] && finale[i].scope != finale[k].scope;
      }
    }
  }

  /** A permission of a scope not seen yet starts a new group at the end. */
  lemma StartedEntries(ps: seq<string>, finale: seq<PermissionGroup>, permission: string)
    requires Accumulated(ps, finale)
    requires ScopeOf(permission) !in Scopes(finale)
    ensures var next := finale + [PermissionGroup(ScopeOf(permission), [EntryOf(permission)])];
      && DistinctScopes(next)
      && forall i :: 0 <= i < |next| ==> next[i].entries == EntriesIn(ps + [permission], next[i].scope) && next[i].entries != []
  {
    var scope := ScopeOf(permission);
    var next := finale + [PermissionGroup(scope, [EntryOf(permission)])];
    forall i | 0 <= i < |finale| ensures finale[i].scope != scope {
      assert Scopes(finale)[i] == finale[i].scope;
    }
    forall i | 0 <= i < |next|
      ensures next[i].entries == EntriesIn(ps + [permission], next[i].scope) && next[i].entries != []
    {
      EntriesInSnoc(ps, permission, next[i].scope);
      if i == |finale| {
        NoEntries(ps, scope);
      }
    }
  }

  /** The scope of every permission seen so far has a group in the new accumulator. */
  lemma ReducerCovers(ps: seq<string>, finale: seq<PermissionGroup>, permission: string)
    requires Accumulated(ps, finale)
    ensures forall p :: p in ps + [permission] ==> ScopeOf(p) in Scopes(Reducer(finale, permission))
  {
    var next := Reducer(finale, permission);
    forall p | p in ps + [permission] ensures ScopeOf(p) in Scopes(next) {
      if p != permission {
        assert p in ps;
        var k :| 0 <= k < |finale| && finale[k].scope == ScopeOf(p);
        assert next[k].scope == ScopeOf(p);
      } else {
        var r := FindScope(finale, ScopeOf(permission));
        var k := if r.Some? then r.value else |finale|;
        assert next[k].scope == ScopeOf(p);
      }
    }
  }

  /** Sorting the finished accumulator gives the grouping. */
  lemma SortedAccumulation(ps: seq<string>, finale: seq<PermissionGroup>)
    requires Accumulated(ps, finale)
    ensures IsGrouping(ps, SortByScope(finale))
  {
    var groups := SortByScope(finale);
    SortSortedDistinct(finale);
    forall i, j | 0 <= i < j < |groups| ensures Less(groups[i].scope, groups[j].scope) {
      LessTotal(groups[i].scope, groups[j].scope);
    }
    forall p | p in ps ensures ScopeOf(p) in Scopes(groups) {
      var k :| 0 <= k < |finale| && finale[k].scope == ScopeOf(p);
      assert finale[k] in multiset(groups);
    }
    forall i | 0 <= i < |groups| ensures groups[i].entries == EntriesIn(ps, groups[i].scope) && groups[i].entries != [] {
      assert groups[i] in multiset(finale);
    }
  }

  /** `groupPermissions`: the reduce into `finale` followed by the sort. */
  method GroupPermissions(permissions: seq<string>) returns (groups: seq<PermissionGroup>)
    ensures IsGrouping(permissions, groups)
  {
    var finale: seq<PermissionGroup> := [];
    for i := 0 to |permissions|
      invariant Accumulated(permissions[..i], finale)
    {
      ReducerStep(permissions[..i], finale, permissions[i]);
      assert permissions[..i + 1] == permissions[..i] + [permissions[i]];
      finale := Reducer(finale, permissions[i]);
    }
    assert permissions[..|permissions|] == permissions;
    SortedAccumulation(permissions, finale);
    groups := SortByScope(finale);
  }

  // ---------------------------------------------------------------------------
  // What the grouping determines

  /** A non-empty entry list has a permission behind it. */
  lemma {:induction false} EntriesHaveWitness(ps: seq<string>, scope: string)
    requires EntriesIn(ps, scope) != []
    ensures exists p :: p in ps && ScopeOf(p) == scope
    decreases |ps|
  {
    var last := ps[|ps| - 1];
    if ScopeOf(last) != scope {
      EntriesHaveWitness(ps[..|ps| - 1], scope);
      var p :| p in ps[..|ps| - 1] && ScopeOf(p) == scope;
      assert p in ps;
    }
  }

  /** Two strictly ascending sequences with the same elements are equal. */
  lemma {:induction false} AscendingUnique(x: seq<string>, y: seq<string>)
    requires forall i, j :: 0 <= i < j < |x| ==> Less(x[i], x[j])
    requires forall i, j :: 0 <= i < j < |y| ==> Less(y[i], y[j])
    requires forall e :: e in x <==> e in y
    ensures x == y
    decreases |x|
  {
    BothEmpty(x, y);
    if x != [] {
      if x[0] != y[0] {
        assert y[0] in x && x[0] in y;
        var k :| 0 <= k < |y| && y[k] == x[0];
        var m :| 0 <= m < |x| && x[m] == y[0];
        assert k > 0 && m > 0;
        LessAsymmetric(y[0], x[0]);
      }
      forall e | e in x[1..] ensures e in y[1..] {
        var m :| 1 <= m < |x| && x[m] == e;
        LessIrreflexive(x[0]);
        assert e in y && e != y[0];
      }
      forall e | e in y[1..] ensures e in x[1..] {
        var m :| 1 <= m < |y| && y[m] == e;
        LessIrreflexive(y[0]);
        assert e in x && e != x[0];
      }
      AscendingUnique(x[1..], y[1..]);
    }
  }

  lemma BothEmpty(x: seq<string>, y: seq<string>)
    requires forall e :: e in x <==> e in y
    ensures x == [] <==> y == []
  {
    if x != [] {
      assert x[0] in y;
    }
    if y != [] {
      assert y[0] in x;
    }
  }

  /** The grouping of a permission list is unique: `groupPermissions` has one possible result. */
  lemma GroupingIsUnique(ps: seq<string>, a: seq<PermissionGroup>, b: seq<PermissionGroup>)
    requires IsGrouping(ps, a) && IsGrouping(ps, b)
    ensures a == b
  {
    forall e | e in Scopes(a) ensures e in Scopes(b) {
      var i :| 0 <= i < |a| && a[i].scope == e;
      EntriesHaveWitness(ps, e);
    }
    forall e | e in Scopes(b) ensures e in Scopes(a) {
      var i :| 0 <= i < |b| && b[i].scope == e;
      EntriesHaveWitness(ps, e);
    }
    AscendingUnique(Scopes(a), Scopes(b));
    forall i | 0 <= i < |a| ensures a[i] == b[i] {
      assert Scopes(a)[i] == Scopes(b)[i];
    }
  }

  /** With no permissions the only grouping is the empty one. */
  lemma EmptyGrouping(groups: seq<PermissionGroup>)
    ensures IsGrouping([], groups) <==> groups == []
  {
    if groups != [] {
      assert EntriesIn([], groups[0].scope) == [];
    }
  }

  /** The entries three permissions collect for a scope. */
  lemma EntriesOfThree(x: string, y: string, z: string, scope: string)
    ensures EntriesIn([x, y, z], scope) == EntryIfIn(x, scope) + EntryIfIn(y, scope) + EntryIfIn(z, scope)
  {
    var ps, xy, just := [x, y, z], [x, y], [x];
    assert just[..0] == [];
    assert EntriesIn(just, scope) == EntryIfIn(x, scope);
    assert xy[..1] == just;
    assert EntriesIn(xy, scope) == EntriesIn(just, scope) + EntryIfIn(y, scope);
    assert ps[..2] == xy;
    assert EntriesIn(ps, scope) == EntriesIn(xy, scope) + EntryIfIn(z, scope);
  }

  /** The shape of the generator's tests: two entries `r`, `w` of a scope `a` and an entry `r`
      of a scope `b` ordered before it group into `b` first, then `a` with its entries in order. */
  lemma ThreeGrouping(a: string, b: string, r: string, w: string)
    requires ':' !in a && ':' !in b && ':' !in r && ':' !in w
    requires Less(b, a)
    ensures IsGrouping([a + ":" + r, a + ":" + w, b + ":" + r],
                       [PermissionGroup(b, [Some(r)]), PermissionGroup(a, [Some(r), Some(w)])])
  {
    var x, y, z := a + ":" + r, a + ":" + w, b + ":" + r;
    var ps := [x, y, z];
    var groups := [PermissionGroup(b, [Some(r)]), PermissionGroup(a, [Some(r), Some(w)])];
    SplitPermission(a, r, "");
    assert a + ":" + r + "" == x;
    SplitPermission(a, w, "");
    assert a + ":" + w + "" == y;
    SplitPermission(b, r, "");
    assert b + ":" + r + "" == z;
    LessIrreflexive(a);
    assert a != b;
    EntriesOfThree(x, y, z, a);
    EntriesOfThree(x, y, z, b);
    assert Scopes(groups) == [b, a];
    forall p | p in ps ensures ScopeOf(p) in Scopes(groups) {
      assert p == x || p == y || p == z;
    }
    forall i | 0 <= i < |groups| ensures groups[i].entries == EntriesIn(ps, groups[i].scope) && groups[i].entries != [] {
      assert i == 0 || i == 1;
    }
  }

  /** The example of the generator's tests: `http:read, http:write, fs:read` gives `fs` first. */
  lemma GroupingExample(groups: seq<PermissionGroup>)
    requires IsGrouping(["http:read", "http:write", "fs:read"], groups)
    ensures groups == [PermissionGroup("fs", [Some("read")]), PermissionGroup("http", [Some("read"), Some("write")])]
  {
    assert Less("fs", "http");
    ThreeGrouping("http", "fs", "read", "write");
    assert "http" + ":" + "read" == "http:read";
    assert "http" + ":" + "write" == "http:write";
    assert "fs" + ":" + "read" == "fs:read";
    GroupingIsUnique(["http:read", "http:write", "fs:read"], groups,
      [PermissionGroup("fs", [Some("read")]), PermissionGroup("http", [Some("read"), Some("write")])]);
  }

  function TotalEntries(groups: seq<PermissionGroup>): nat {
    if groups == [] then 0 else |groups[0].entries| + TotalEntries(groups[1..])
  }

  function EntriesOver(ps: seq<string>, scopes: seq<string>): nat {
    if scopes == [] then 0 else |EntriesIn(ps, scopes[0])| + EntriesOver(ps, scopes[1..])
  }

  function Occurrences(scopes: seq<string>, scope: string): nat {
    if scopes == [] then 0 else (if scopes[0] == scope then 1 else 0) + Occurrences(scopes[1..], scope)
  }

  lemma {:induction false} OccursOnce(scopes: seq<string>, scope: string)
    requires forall i, j :: 0 <= i < j < |scopes| ==> scopes[i] != scopes[j]
    requires scope in scopes
    ensures Occurrences(scopes, scope) == 1
    decreases |scopes|
  {
    if scopes[0] == scope {
      NotOccurring(scopes[1..], scope);
    } else {
      OccursOnce(scopes[1..], scope);
    }
  }

  lemma {:induction false} NotOccurring(scopes: seq<string>, scope: string)
    requires scope !in scopes
    ensures Occurrences(scopes, scope) == 0
    decreases |scopes|
  {
    if scopes != [] {
      NotOccurring(scopes[1..], scope);
    }
  }

  lemma {:induction false} EntriesOverStep(ps: seq<string>, p: string, scopes: seq<string>)
    ensures EntriesOver(ps + [p], scopes) == EntriesOver(ps, scopes) + Occurrences(scopes, ScopeOf(p))
    decreases |scopes|
  {
    if scopes != [] {
      assert (ps + [p])[..|ps|] == ps;
      EntriesOverStep(ps, p, scopes[1..]);
    }
  }

  lemma {:induction false} EntriesOverAll(ps: seq<string>, scopes: seq<string>)
    requires forall i, j :: 0 <= i < j < |scopes| ==> scopes[i] != scopes[j]
    requires forall p :: p in ps ==> ScopeOf(p) in scopes
    ensures EntriesOver(ps, scopes) == |ps|
    decreases |ps|
  {
    if ps == [] {
      NoEntriesOver(scopes);
    } else {
      var prefix, last := ps[..|ps| - 1], ps[|ps| - 1];
      assert ps == prefix + [last];
      EntriesOverAll(prefix, scopes);
      EntriesOverStep(prefix, last, scopes);
      OccursOnce(scopes, ScopeOf(last));
    }
  }

  lemma {:induction false} NoEntriesOver(scopes: seq<string>)
    ensures EntriesOver([], scopes) == 0
    decreases |scopes|
  {
    if scopes != [] {
      NoEntriesOver(scopes[1..]);
    }
  }

  lemma {:induction false} TotalIsEntriesOver(ps: seq<string>, groups: seq<PermissionGroup>)
    requires forall i :: 0 <= i < |groups| ==> groups[i].entries == EntriesIn(ps, groups[i].scope)
    ensures TotalEntries(groups) == EntriesOver(ps, Scopes(groups))
    decreases |groups|
  {
    if groups != [] {
      assert Scopes(groups)[1..] == Scopes(groups[1..]);
      TotalIsEntriesOver(ps, groups[1..]);
    }
  }

  /** Every permission contributes exactly one entry: the entries add up to the input length. */
  lemma GroupingKeepsEveryEntry(ps: seq<string>, groups: seq<PermissionGroup>)
    requires IsGrouping(ps, groups)
    ensures TotalEntries(groups) == |ps|
  {
    TotalIsEntriesOver(ps, groups);
    forall i, j | 0 <= i < j < |Scopes(groups)| ensures Scopes(groups)[i] != Scopes(groups)[j] {
      LessIrreflexive(groups[i].scope);
    }
    EntriesOverAll(ps, Scopes(groups));
  }

  // ---------------------------------------------------------------------------
  // Constructing a generator

  /** `TypeScriptPluginGenerator`: its `type` is `"typescript"`; the context is the one the
      constructor leaves behind, with `permissions` replaced by their grouping. */
  datatype PluginGenerator = TypeScriptPluginGenerator(context: Context) {
    function Type(): string {
      "typescript"
    }
  }

  const PermissionsKey := "permissions"
  const UndefinedReduce := "Cannot read properties of undefined (reading 'reduce')"
  const ReduceNotAFunction := "permissions.reduce is not a function"
  const SplitNotAFunction := "permission.split is not a function"

  /** What the constructor's `reduce` over `context.props.permissions` meets: the list of
      permission strings, or the `TypeError` it throws on any other value. An empty array
      of any element type reduces to nothing. */
  function PermissionInput(props: map<string, PropValue>): (r: Result<seq<string>>)
    ensures PermissionsKey !in props ==> r == Err(UndefinedReduce)
    ensures PermissionsKey in props && props[PermissionsKey].PList? ==> r == Ok(props[PermissionsKey].items)
  {
    if PermissionsKey !in props then Err(UndefinedReduce)
    else match props[PermissionsKey]
      case PList(items) => Ok(items)
      case PGroups(groups) => if groups == [] then Ok([]) else Err(SplitNotAFunction)
      case _ => Err(ReduceNotAFunction)
  }

  /** The constructor's effect on the context: `permissions` now holds the grouping. */
  ghost predicate Regrouped(before: Context, after: Context, ps: seq<string>) {
    exists groups ::
      && IsGrouping(ps, groups)
      && after == Context(before.props[PermissionsKey := PGroups(groups)], before.target)
  }

  /** `new TypeScriptPluginGenerator(context)` as written: a context without `permissions`
      makes the `reduce` throw. */
  method NewTypeScriptPluginGeneratorAsWritten(context: Context) returns (r: Result<PluginGenerator>)
    ensures PermissionInput(context.props).Err? ==> r == Err(PermissionInput(context.props).message)
    ensures PermissionInput(context.props).Ok? ==>
      r.Ok? && Regrouped(context, r.value.context, PermissionInput(context.props).value)
    ensures PermissionsKey !in context.props ==> r.Err?
  {
    var input := PermissionInput(context.props);
    if input.Err? {
      return Err(input.message);
    }
    var groups := GroupPermissions(input.value);
    r := Ok(TypeScriptPluginGenerator(Context(context.props[PermissionsKey := PGroups(groups)], context.target)));
  }

  /** `new TypeScriptPluginGenerator(context)` as the generator's tests expect it: absent
      permissions group to the empty list ("handles empty permissions"). */
  method NewTypeScriptPluginGenerator(context: Context) returns (r: Result<PluginGenerator>)
    ensures PermissionsKey !in context.props ==>
      r == Ok(TypeScriptPluginGenerator(Context(context.props[PermissionsKey := PGroups([])], context.target)))
    ensures PermissionsKey in context.props && PermissionInput(context.props).Err? ==>
      r == Err(PermissionInput(context.props).message)
    ensures PermissionInput(context.props).Ok? ==>
      r.Ok? && Regrouped(context, r.value.context, PermissionInput(context.props).value)
  {
    if PermissionsKey !in context.props {
      EmptyGrouping([]);
      return Ok(TypeScriptPluginGenerator(Context(context.props[PermissionsKey := PGroups([])], context.target)));
    }
    r := NewTypeScriptPluginGeneratorAsWritten(context);
  }

  /** The message `createPluginGenerator` throws for a language it has no generator for. */
  function NotImplemented(kind: string): string {
    "Plugin generator type \"" + kind + "\" is not implemented."
  }

  /** `createPluginGenerator(type, context)`: only `"typescript"` has a generator. */
  method CreatePluginGenerator(kind: string, context: Context) returns (r: Result<PluginGenerator>)
    ensures kind != "typescript" ==> r == Err(NotImplemented(kind))
    ensures kind == "typescript" && PermissionInput(context.props).Ok? ==>
      r.Ok? && r.value.Type() == kind && Regrouped(context, r.value.context, PermissionInput(context.props).value)
    ensures kind == "typescript" && PermissionsKey !in context.props ==>
      r == Ok(TypeScriptPluginGenerator(Context(context.props[PermissionsKey := PGroups([])], context.target))) &&
      r.value.Type() == kind
  {
    if kind == "typescript" {
      r := NewTypeScriptPluginGenerator(context);
    } else {
      r := Err(NotImplemented(kind));
    }
  }

  // ---------------------------------------------------------------------------
  // Template file names

  /** The index of the last `.` of `s`, or -1 when it has none. */
  function LastDot(s: string): (d: int)
    ensures -1 <= d < |s|
    ensures d >= 0 ==> s[d] == '.'
    ensures forall i :: d < i < |s| ==> s[i] != '.'
  {
    if s == [] then -1
    else if s[|s| - 1] == '.' then |s| - 1
    else LastDot(s[..|s| - 1])
  }

  /** `extname` of a file name: from its last `.` on, except when that dot starts the name
      (`.gitignore` has no extension) or the name is `..`. */
  function ExtName(name: string): string {
    var d := LastDot(name);
    if d <= 0 || name == ".." then "" else name[d..]
  }

  /** `extname(sourcePath).toLowerCase() === ".eta"`. */
  predicate IsTemplate(name: string) {
    Text.LowerAscii(ExtName(name)) == ".eta"
  }

  /** The name a file gets in the target: `basename(sourcePath, extname(sourcePath))` for a
      template, the entry's own name otherwise. */
  function TargetName(name: string): string {
    if IsTemplate(name) then name[..|name| - |ExtName(name)|] else name
  }

  /** A template is a name of more than four characters ending in `.eta` in any case; its
      target name is the name without those four characters. */
  lemma TemplateNames(name: string)
    ensures IsTemplate(name) <==> |name| > 4 && Text.LowerAscii(name[|name| - 4..]) == ".eta"
    ensures IsTemplate(name) ==> TargetName(name) + name[|name| - 4..] == name && TargetName(name) != []
    ensures !IsTemplate(name) ==> TargetName(name) == name
  {
    var n := |name|;
    if n > 4 && Text.LowerAscii(name[n - 4..]) == ".eta" {
      var tail := name[n - 4..];
      assert Text.ToLowerAscii(tail[0]) == '.' && tail[0] == name[n - 4];
      forall i | n - 4 < i < n ensures name[i] != '.' {
        assert Text.ToLowerAscii(tail[i - (n - 4)]) != '.' && tail[i - (n - 4)] == name[i];
      }
      assert LastDot(name) == n - 4;
    }
    if IsTemplate(name) {
      assert |ExtName(name)| == 4;
    }
  }

  // ---------------------------------------------------------------------------
  // Template trees and what walking them writes

  /** An entry of a template directory, as `readdir(…, { withFileTypes: true })` lists it. */
  datatype Entry = FileEntry(name: string) | DirEntry(name: string, children: seq<Entry>)

  /** What a written file holds: a template rendered with the property bag (named by its path
      below the templates directory), or a verbatim copy of a file of that directory. */
  datatype Content = Rendered(template: Path, props: map<string, PropValue>) | Copied(source: Path)

  /** One filesystem effect of the walk: `mkdir(…, { recursive: true })`, or `writeFile`/`copyFile`. */
  datatype Write = MakeDir(dir: Path) | PutFile(file: Path, content: Content)

  /** The effect of a file entry `name` of the template directory `source`. */
  function FileWrite(source: Path, name: string, target: Path, props: map<string, PropValue>): Write {
    if IsTemplate(name) then PutFile(target + [TargetName(name)], Rendered(source + [name], props))
    else PutFile(target + [name], Copied(source + [name]))
  }

  /** The effects of the entries of `source`, in the order `readdir` lists them. */
  function EntriesWrites(source: Path, entries: seq<Entry>, target: Path, props: map<string, PropValue>): seq<Write>
    decreases entries
  {
    if entries == [] then []
    else EntriesWrites(source, entries[..|entries| - 1], target, props) + EntryWrites(source, entries[|entries| - 1], target, props)
  }

  function EntryWrites(source: Path, entry: Entry, target: Path, props: map<string, PropValue>): seq<Write>
    decreases entry
  {
    match entry
    case FileEntry(name) => [FileWrite(source, name, target, props)]
    case DirEntry(name, children) =>
      [MakeDir(target + [name])] + EntriesWrites(source + [name], children, target + [name], props)
  }

  /** `#generateFiles(source, target)`: the target directory first, then every entry. */
  function TreeWrites(source: Path, entries: seq<Entry>, target: Path, props: map<string, PropValue>): seq<Write> {
    [MakeDir(target)] + EntriesWrites(source, entries, target, props)
  }

  // ---------------------------------------------------------------------------
  // What the walk promises about its writes

  predicate Within(prefix: Path, p: Path) {
    |prefix| <= |p| && p[..|prefix|] == prefix
  }

  function SourceOf(c: Content): Path {
    match c
    case Rendered(template, _) => template
    case Copied(source) => source
  }

  /** A write of the walk from `source` into `target` lands below `target`; a file lands
      at the same relative directory as the entry it comes from, under that entry's target
      name, rendered with the property bag exactly when the entry is a template. */
  predicate Mirrors(source: Path, target: Path, props: map<string, PropValue>, w: Write) {
    match w
    case MakeDir(p) => Within(target, p)
    case PutFile(p, c) =>
      var src := SourceOf(c);
      && Within(source, src) && |src| > |source|
      && Within(target, p) && |p| - |target| == |src| - |source|
      && p[|target|..|p| - 1] == src[|source|..|src| - 1]
      && SameLeaf(p, c, props)
  }

  /** The file is named after its source entry's target name and rendered with the property
      bag exactly when that entry is a template. */
  predicate SameLeaf(p: Path, c: Content, props: map<string, PropValue>) {
    var src := SourceOf(c);
    && |p| > 0 && |src| > 0
    && p[|p| - 1] == TargetName(src[|src| - 1])
    && (c.Rendered? <==> IsTemplate(src[|src| - 1]))
    && (c.Rendered? ==> c.props == props)
  }

  /** What holds below the subdirectory `name` holds below its parent. */
  lemma MirrorsWiden(source: Path, name: string, target: Path, props: map<string, PropValue>, w: Write)
    requires Mirrors(source + [name], target + [name], props, w)
    ensures Mirrors(source, target, props, w)
  {
    match w
    case MakeDir(p) =>
      WithinWiden(target, name, p);
    case PutFile(p, c) =>
      FileWiden(source, name, target, props, p, c);
  }

  lemma FileWiden(source: Path, name: string, target: Path, props: map<string, PropValue>, p: Path, c: Content)
    requires Mirrors(source + [name], target + [name], props, PutFile(p, c))
    ensures Mirrors(source, target, props, PutFile(p, c))
  {
    var src := SourceOf(c);
    WithinWiden(target, name, p);
    WithinWiden(source, name, src);
    SliceWiden(p, src, |target|, |source|);
  }

  /** Relative paths one step longer: the same first step and the same rest. */
  lemma SliceWiden(p: Path, src: Path, t: nat, s: nat)
    requires t < |p| - 1 && s < |src| - 1 && p[t] == src[s]
    requires p[t + 1..|p| - 1] == src[s + 1..|src| - 1]
    ensures p[t..|p| - 1] == src[s..|src| - 1]
  {
    SliceHead(p, t, |p| - 1);
    SliceHead(src, s, |src| - 1);
  }

  /** A path below `prefix + [name]` is below `prefix`, one step further, through `name`. */
  lemma WithinWiden(prefix: Path, name: string, p: Path)
    requires Within(prefix + [name], p)
    ensures Within(prefix, p) && |p| > |prefix| && p[|prefix|] == name
  {
    assert p[..|prefix|] == (p[..|prefix| + 1])[..|prefix|];
    assert p[|prefix|] == (p[..|prefix| + 1])[|prefix|];
  }

  lemma SliceHead(p: Path, k: nat, e: nat)
    requires k < e <= |p|
    ensures p[k..e] == [p[k]] + p[k + 1..e]
  {
  }

  lemma {:induction false} EntriesMirror(source: Path, entries: seq<Entry>, target: Path, props: map<string, PropValue>)
    ensures forall w :: w in EntriesWrites(source, entries, target, props) ==> Mirrors(source, target, props, w)
    decreases entries
  {
    if entries != [] {
      EntriesMirror(source, entries[..|entries| - 1], target, props);
      EntryMirrors(source, entries[|entries| - 1], target, props);
    }
  }

  lemma {:induction false} EntryMirrors(source: Path, entry: Entry, target: Path, props: map<string, PropValue>)
    ensures forall w :: w in EntryWrites(source, entry, target, props) ==> Mirrors(source, target, props, w)
    decreases entry
  {
    match entry
    case FileEntry(name) =>
      var w := FileWrite(source, name, target, props);
      var p := w.file;
      var src := SourceOf(w.content);
      assert p[..|target|] == target && src[..|source|] == source;
      assert p[|target|..|p| - 1] == [] == src[|source|..|src| - 1];
    case DirEntry(name, children) =>
      var sub := target + [name];
      assert sub[..|target|] == target;
      EntriesMirror(source + [name], children, sub, props);
      forall w | w in EntriesWrites(source + [name], children, sub, props) ensures Mirrors(source, target, props, w) {
        MirrorsWiden(source, name, target, props, w);
      }
  }

  /** Every write of `#generateFiles(source, target)` mirrors the template tree into `target`. */
  lemma TreeMirrors(source: Path, entries: seq<Entry>, target: Path, props: map<string, PropValue>)
    ensures forall w :: w in TreeWrites(source, entries, target, props) ==> Mirrors(source, target, props, w)
  {
    assert target[..|target|] == target;
    EntriesMirror(source, entries, target, props);
  }

  function Parent(p: Path): Path {
    if p == [] then [] else p[..|p| - 1]
  }

  /** Each file is written after the directory that holds it was created. */
  predicate DirectoryFirst(ws: seq<Write>) {
    forall k :: 0 <= k < |ws| && ws[k].PutFile? ==>
      exists j :: 0 <= j < k && ws[j] == MakeDir(Parent(ws[k].file))
  }

  /** As `DirectoryFirst`, except that files directly in `made` (created before `ws`) need nothing. */
  predicate Prepared(ws: seq<Write>, made: Path) {
    forall k :: 0 <= k < |ws| && ws[k].PutFile? ==>
      Parent(ws[k].file) == made || exists j :: 0 <= j < k && ws[j] == MakeDir(Parent(ws[k].file))
  }

  lemma PreparedAppend(a: seq<Write>, b: seq<Write>, made: Path)
    requires Prepared(a, made) && Prepared(b, made)
    ensures Prepared(a + b, made)
  {
    var ab := a + b;
    forall k | 0 <= k < |ab| && ab[k].PutFile? && Parent(ab[k].file) != made
      ensures exists j :: 0 <= j < k && ab[j] == MakeDir(Parent(ab[k].file))
    {
      if k < |a| {
        var j :| 0 <= j < k && a[j] == MakeDir(Parent(a[k].file));
        assert ab[j] == a[j];
      } else {
        assert ab[k] == b[k - |a|];
        var j :| 0 <= j < k - |a| && b[j] == MakeDir(Parent(b[k - |a|].file));
        assert ab[j + |a|] == b[j];
      }
    }
  }

  lemma PreparedUnder(ws: seq<Write>, made: Path)
    requires Prepared(ws, made)
    ensures DirectoryFirst([MakeDir(made)] + ws)
  {
    var all := [MakeDir(made)] + ws;
    forall k | 0 <= k < |all| && all[k].PutFile? ensures exists j :: 0 <= j < k && all[j] == MakeDir(Parent(all[k].file)) {
      assert all[k] == ws[k - 1];
      if Parent(ws[k - 1].file) == made {
        assert all[0] == MakeDir(Parent(all[k].file));
      } else {
        var j :| 0 <= j < k - 1 && ws[j] == MakeDir(Parent(ws[k - 1].file));
        assert all[j + 1] == ws[j];
      }
    }
  }

  lemma {:induction false} EntriesPrepared(source: Path, entries: seq<Entry>, target: Path, props: map<string, PropValue>)
    ensures Prepared(EntriesWrites(source, entries, target, props), target)
    decreases entries
  {
    if entries != [] {
      EntriesPrepared(source, entries[..|entries| - 1], target, props);
      EntryPrepared(source, entries[|entries| - 1], target, props);
      PreparedAppend(EntriesWrites(source, entries[..|entries| - 1], target, props),
                     EntryWrites(source, entries[|entries| - 1], target, props), target);
    }
  }

  lemma {:induction false} EntryPrepared(source: Path, entry: Entry, target: Path, props: map<string, PropValue>)
    ensures Prepared(EntryWrites(source, entry, target, props), target)
    decreases entry
  {
    match entry
    case FileEntry(name) =>
      var w := FileWrite(source, name, target, props);
      assert Parent(w.file) == target;
    case DirEntry(name, children) =>
      EntriesPrepared(source + [name], children, target + [name], props);
      PreparedUnder(EntriesWrites(source + [name], children, target + [name], props), target + [name]);
  }

  /** `#generateFiles` creates every directory before it writes a file into it. */
  lemma TreeDirectoryFirst(source: Path, entries: seq<Entry>, target: Path, props: map<string, PropValue>)
    ensures DirectoryFirst(TreeWrites(source, entries, target, props))
  {
    EntriesPrepared(source, entries, target, props);
    PreparedUnder(EntriesWrites(source, entries, target, props), target);
  }

  /** The number of files of a template tree. */
  function FileCount(entries: seq<Entry>): nat
    decreases entries
  {
    if entries == [] then 0 else FileCount(entries[..|entries| - 1]) + EntryFileCount(entries[|entries| - 1])
  }

  function EntryFileCount(entry: Entry): nat
    decreases entry
  {
    match entry
    case FileEntry(_) => 1
    case DirEntry(_, children) => FileCount(children)
  }

  function PutCount(ws: seq<Write>): nat {
    if ws == [] then 0 else PutCount(ws[..|ws| - 1]) + (if ws[|ws| - 1].PutFile? then 1 else 0)
  }

  lemma {:induction false} PutCountAppend(a: seq<Write>, b: seq<Write>)
    ensures PutCount(a + b) == PutCount(a) + PutCount(b)
    decreases |b|
  {
    if b != [] {
      assert (a + b)[..|a + b| - 1] == a + b[..|b| - 1];
      PutCountAppend(a, b[..|b| - 1]);
    } else {
      assert a + b == a;
    }
  }

  lemma {:induction false} EntriesPutCount(source: Path, entries: seq<Entry>, target: Path, props: map<string, PropValue>)
    ensures PutCount(EntriesWrites(source, entries, target, props)) == FileCount(entries)
    decreases entries
  {
    if entries != [] {
      EntriesPutCount(source, entries[..|entries| - 1], target, props);
      EntryPutCount(source, entries[|entries| - 1], target, props);
      PutCountAppend(EntriesWrites(source, entries[..|entries| - 1], target, props),
                     EntryWrites(source, entries[|entries| - 1], target, props));
    }
  }

  lemma {:induction false} EntryPutCount(source: Path, entry: Entry, target: Path, props: map<string, PropValue>)
    ensures PutCount(EntryWrites(source, entry, target, props)) == EntryFileCount(entry)
    decreases entry
  {
    match entry
    case FileEntry(name) =>
      assert [FileWrite(source, name, target, props)][..0] == [];
    case DirEntry(name, children) =>
      var inner := EntriesWrites(source + [name], children, target + [name], props);
      EntriesPutCount(source + [name], children, target + [name], props);
      PutCountAppend([MakeDir(target + [name])], inner);
      assert [MakeDir(target + [name])][..0] == [];
  }

  /** `#generateFiles` writes one file per file of the template tree. */
  lemma TreeWritesEveryFile(source: Path, entries: seq<Entry>, target: Path, props: map<string, PropValue>)
    ensures PutCount(TreeWrites(source, entries, target, props)) == FileCount(entries)
  {
    EntriesPutCount(source, entries, target, props);
    PutCountAppend([MakeDir(target)], EntriesWrites(source, entries, target, props));
    assert [MakeDir(target)][..0] == [];
  }

  /** A file of a template tree: its directory relative to the tree's root, and its name. */
  datatype Leaf = Leaf(dir: Path, name: string)

  /** The files of a template tree, each at its relative directory. */
  function Files(entries: seq<Entry>): set<Leaf>
    decreases entries
  {
    if entries == [] then {} else Files(entries[..|entries| - 1]) + EntryFiles(entries[|entries| - 1])
  }

  function EntryFiles(entry: Entry): set<Leaf>
    decreases entry
  {
    match entry
    case FileEntry(name) => {Leaf([], name)}
    case DirEntry(name, children) => set f | f in Files(children) :: Leaf([name] + f.dir, f.name)
  }

  /** The directories of a template tree, as paths relative to the tree's root. */
  function Dirs(entries: seq<Entry>): set<Path>
    decreases entries
  {
    if entries == [] then {} else Dirs(entries[..|entries| - 1]) + EntryDirs(entries[|entries| - 1])
  }

  function EntryDirs(entry: Entry): set<Path>
    decreases entry
  {
    match entry
    case FileEntry(_) => {}
    case DirEntry(name, children) => {[name]} + set d | d in Dirs(children) :: [name] + d
  }

  /** The write that creates the file `f` of the template directory `source` below `target`. */
  function LeafWrite(source: Path, f: Leaf, target: Path, props: map<string, PropValue>): Write {
    FileWrite(source + f.dir, f.name, target + f.dir, props)
  }

  /** Every file of the entries has its write. */
  lemma {:induction false} EntriesWriteFiles(source: Path, entries: seq<Entry>, target: Path, props: map<string, PropValue>)
    ensures forall f :: f in Files(entries) ==> LeafWrite(source, f, target, props) in EntriesWrites(source, entries, target, props)
    decreases entries
  {
    if entries != [] {
      EntriesWriteFiles(source, entries[..|entries| - 1], target, props);
      EntryWritesFiles(source, entries[|entries| - 1], target, props);
    }
  }

  lemma {:induction false} EntryWritesFiles(source: Path, entry: Entry, target: Path, props: map<string, PropValue>)
    ensures forall f :: f in EntryFiles(entry) ==> LeafWrite(source, f, target, props) in EntryWrites(source, entry, target, props)
    decreases entry
  {
    match entry
    case FileEntry(name) =>
      assert source + [] == source && target + [] == target;
    case DirEntry(name, children) =>
      var src, sub := source + [name], target + [name];
      EntriesWriteFiles(src, children, sub, props);
      forall f | f in EntryFiles(entry) ensures LeafWrite(source, f, target, props) in EntryWrites(source, entry, target, props) {
        var g :| g in Files(children) && f == Leaf([name] + g.dir, g.name);
        LeafBelow(source, name, target, props, g);
      }
  }

  /** The file `g` of the subdirectory `name` is the file `[name] + g.dir` of its parent. */
  lemma LeafBelow(source: Path, name: string, target: Path, props: map<string, PropValue>, g: Leaf)
    ensures LeafWrite(source, Leaf([name] + g.dir, g.name), target, props) == LeafWrite(source + [name], g, target + [name], props)
  {
    assert source + ([name] + g.dir) == (source + [name]) + g.dir;
    assert target + ([name] + g.dir) == (target + [name]) + g.dir;
  }

  /** Every directory of the entries is created. */
  lemma {:induction false} EntriesMakeDirs(source: Path, entries: seq<Entry>, target: Path, props: map<string, PropValue>)
    ensures forall q :: q in Dirs(entries) ==> MakeDir(target + q) in EntriesWrites(source, entries, target, props)
    decreases entries
  {
    if entries != [] {
      EntriesMakeDirs(source, entries[..|entries| - 1], target, props);
      EntryMakesDirs(source, entries[|entries| - 1], target, props);
    }
  }

  lemma {:induction false} EntryMakesDirs(source: Path, entry: Entry, target: Path, props: map<string, PropValue>)
    ensures forall q :: q in EntryDirs(entry) ==> MakeDir(target + q) in EntryWrites(source, entry, target, props)
    decreases entry
  {
    match entry
    case FileEntry(_) =>
    case DirEntry(name, children) =>
      var src, sub := source + [name], target + [name];
      EntriesMakeDirs(src, children, sub, props);
      var ws := EntryWrites(source, entry, target, props);
      assert ws[0] == MakeDir(target + [name]);
      forall q | q in EntryDirs(entry) ensures MakeDir(target + q) in ws {
        if q != [name] {
          var d :| d in Dirs(children) && q == [name] + d;
          assert target + q == sub + d;
        }
      }
  }

  /** The write `w` creates one of the files or one of the directories given. */
  ghost predicate FromTree(source: Path, files: set<Leaf>, dirs: set<Path>, target: Path, props: map<string, PropValue>, w: Write) {
    match w
    case PutFile(_, _) => exists f :: f in files && w == LeafWrite(source, f, target, props)
    case MakeDir(p) => exists q :: q in dirs && p == target + q
  }

  /** Every write of the entries creates one of their files or directories. */
  lemma {:induction false} EntriesOnlyTree(source: Path, entries: seq<Entry>, target: Path, props: map<string, PropValue>)
    ensures forall w :: w in EntriesWrites(source, entries, target, props) ==> FromTree(source, Files(entries), Dirs(entries), target, props, w)
    decreases entries
  {
    if entries != [] {
      var prefix, last := entries[..|entries| - 1], entries[|entries| - 1];
      EntriesOnlyTree(source, prefix, target, props);
      EntryOnlyTree(source, last, target, props);
      forall w | w in EntriesWrites(source, entries, target, props) ensures FromTree(source, Files(entries), Dirs(entries), target, props, w) {
        if w in EntriesWrites(source, prefix, target, props) {
          FromTreeGrows(source, Files(prefix), Dirs(prefix), Files(entries), Dirs(entries), target, props, w);
        } else {
          FromTreeGrows(source, EntryFiles(last), EntryDirs(last), Files(entries), Dirs(entries), target, props, w);
        }
      }
    }
  }

  lemma FromTreeGrows(source: Path, files: set<Leaf>, dirs: set<Path>, files': set<Leaf>, dirs': set<Path>, target: Path, props: map<string, PropValue>, w: Write)
    requires files <= files' && dirs <= dirs' && FromTree(source, files, dirs, target, props, w)
    ensures FromTree(source, files', dirs', target, props, w)
  {
  }

  lemma {:induction false} EntryOnlyTree(source: Path, entry: Entry, target: Path, props: map<string, PropValue>)
    ensures forall w :: w in EntryWrites(source, entry, target, props) ==> FromTree(source, EntryFiles(entry), EntryDirs(entry), target, props, w)
    decreases entry
  {
    match entry
    case FileEntry(name) =>
      assert source + [] == source && target + [] == target;
      assert LeafWrite(source, Leaf([], name), target, props) == FileWrite(source, name, target, props);
    case DirEntry(name, children) =>
      var src, sub := source + [name], target + [name];
      EntriesOnlyTree(src, children, sub, props);
      forall w | w in EntryWrites(source, entry, target, props)
        ensures FromTree(source, EntryFiles(entry), EntryDirs(entry), target, props, w)
      {
        if w == MakeDir(sub) {
          assert [name] in EntryDirs(entry);
        } else {
          assert w in EntriesWrites(src, children, sub, props);
          InnerFromTree(source, name, children, target, props, w);
        }
      }
  }

  /** A write below the subdirectory `name` creates a file or a directory of that entry. */
  lemma InnerFromTree(source: Path, name: string, children: seq<Entry>, target: Path, props: map<string, PropValue>, w: Write)
    requires FromTree(source + [name], Files(children), Dirs(children), target + [name], props, w)
    ensures FromTree(source, EntryFiles(DirEntry(name, children)), EntryDirs(DirEntry(name, children)), target, props, w)
  {
    match w
    case PutFile(_, _) =>
      var g :| g in Files(children) && w == LeafWrite(source + [name], g, target + [name], props);
      LeafBelow(source, name, target, props, g);
      assert Leaf([name] + g.dir, g.name) in EntryFiles(DirEntry(name, children));
    case MakeDir(p) =>
      var d :| d in Dirs(children) && p == target + [name] + d;
      assert [name] + d in EntryDirs(DirEntry(name, children));
      assert p == target + ([name] + d);
  }

  /** `#generateFiles(source, target)` performs exactly the writes the template tree calls for:
      one per file, at its relative directory under its target name, one per directory (the
      target directory itself included), and no other. */
  lemma TreeWritesExactly(source: Path, entries: seq<Entry>, target: Path, props: map<string, PropValue>)
    ensures forall f :: f in Files(entries) ==> LeafWrite(source, f, target, props) in TreeWrites(source, entries, target, props)
    ensures forall q :: q in Dirs(entries) ==> MakeDir(target + q) in TreeWrites(source, entries, target, props)
    ensures MakeDir(target) in TreeWrites(source, entries, target, props)
    ensures forall w :: w in TreeWrites(source, entries, target, props) ==>
      w == MakeDir(target) || FromTree(source, Files(entries), Dirs(entries), target, props, w)
  {
    EntriesWriteFiles(source, entries, target, props);
    EntriesMakeDirs(source, entries, target, props);
    EntriesOnlyTree(source, entries, target, props);
  }

  // ---------------------------------------------------------------------------
  // The target filesystem and the walk itself

  /** The directories and files below the filesystem root that the walk can change. */
  datatype Disk = Disk(dirs: set<Path>, files: map<Path, Content>)

  function Apply(disk: Disk, w: Write): Disk {
    match w
    case MakeDir(p) => disk.(dirs := disk.dirs + {p})
    case PutFile(p, c) => disk.(files := disk.files[p := c])
  }

  /** The disk after the writes `ws`, in order. */
  function Perform(disk: Disk, ws: seq<Write>): Disk {
    if ws == [] then disk else Apply(Perform(disk, ws[..|ws| - 1]), ws[|ws| - 1])
  }

  lemma {:induction false} PerformAppend(disk: Disk, a: seq<Write>, b: seq<Write>)
    ensures Perform(disk, a + b) == Perform(Perform(disk, a), b)
    decreases |b|
  {
    if b == [] {
      assert a + b == a;
    } else {
      assert (a + b)[..|a + b| - 1] == a + b[..|b| - 1];
      PerformAppend(disk, a, b[..|b| - 1]);
    }
  }

  /** The last write to a path decides what it holds; paths nobody writes keep their content. */
  lemma {:induction false} PerformFiles(disk: Disk, ws: seq<Write>, p: Path)
    ensures p in Perform(disk, ws).files <==> p in disk.files || exists k :: 0 <= k < |ws| && ws[k].PutFile? && ws[k].file == p
    ensures (forall k :: 0 <= k < |ws| && ws[k].PutFile? ==> ws[k].file != p) && p in disk.files ==>
      Perform(disk, ws).files[p] == disk.files[p]
    decreases |ws|
  {
    if ws != [] {
      var init := ws[..|ws| - 1];
      PerformFiles(disk, init, p);
      if exists k :: 0 <= k < |init| && init[k].PutFile? && init[k].file == p {
        var k :| 0 <= k < |init| && init[k].PutFile? && init[k].file == p;
        assert ws[k] == init[k];
      }
      if exists k :: 0 <= k < |ws| && ws[k].PutFile? && ws[k].file == p {
        var k :| 0 <= k < |ws| && ws[k].PutFile? && ws[k].file == p;
        if k < |init| {
          assert init[k] == ws[k];
        }
      }
      forall k | 0 <= k < |init| ensures init[k] == ws[k] {
      }
    }
  }

  /** The filesystem `mkdir`, `writeFile` and `copyFile` act on. */
  class FileSystem {
    var dirs: set<Path>
    var files: map<Path, Content>

    constructor(disk: Disk)
      ensures State() == disk
    {
      dirs := disk.dirs;
      files := disk.files;
    }

    function State(): Disk
      reads this
    {
      Disk(dirs, files)
    }

    /** `mkdir(p, { recursive: true })`. */
    method MakeDirectory(p: Path)
      modifies this
      ensures State() == Apply(old(State()), MakeDir(p))
    {
      dirs := dirs + {p};
    }

    /** `writeFile(p, …)` or `copyFile(…, p)`. */
    method Put(p: Path, c: Content)
      modifies this
      ensures State() == Apply(old(State()), PutFile(p, c))
    {
      files := files[p := c];
    }
  }

  /** One more entry of the walk: its writes follow those of the entries before it. */
  lemma WalkStep(start: Disk, source: Path, entries: seq<Entry>, k: nat, target: Path, props: map<string, PropValue>)
    requires k < |entries|
    ensures Perform(Perform(start, [MakeDir(target)] + EntriesWrites(source, entries[..k], target, props)),
                    EntryWrites(source, entries[k], target, props))
         == Perform(start, [MakeDir(target)] + EntriesWrites(source, entries[..k + 1], target, props))
  {
    var done := [MakeDir(target)] + EntriesWrites(source, entries[..k], target, props);
    var next := EntryWrites(source, entries[k], target, props);
    PerformAppend(start, done, next);
    assert entries[..k + 1][..k] == entries[..k] && entries[..k + 1][k] == entries[k];
    assert done + next == [MakeDir(target)] + EntriesWrites(source, entries[..k + 1], target, props);
  }

  /** `#generateFiles(source, target)` over the listing `entries` of `source`, recursing into
      its subdirectories. */
  method GenerateFiles(fs: FileSystem, source: Path, entries: seq<Entry>, target: Path, props: map<string, PropValue>)
    modifies fs
    ensures fs.State() == Perform(old(fs.State()), TreeWrites(source, entries, target, props))
    decreases entries
  {
    ghost var start := fs.State();
    fs.MakeDirectory(target);
    assert [MakeDir(target)][..0] == [];
    assert entries[..0] == [];
    for k := 0 to |entries|
      invariant fs.State() == Perform(start, [MakeDir(target)] + EntriesWrites(source, entries[..k], target, props))
    {
      var entry := entries[k];
      ghost var before := fs.State();
      match entry {
        case DirEntry(name, children) =>
          GenerateFiles(fs, source + [name], children, target + [name], props);
        case FileEntry(name) =>
          if IsTemplate(name) {
            fs.Put(target + [TargetName(name)], Rendered(source + [name], props));
          } else {
            fs.Put(target + [name], Copied(source + [name]));
          }
          assert [FileWrite(source, name, target, props)][..0] == [];
      }
      assert fs.State() == Perform(before, EntryWrites(source, entry, target, props));
      WalkStep(start, source, entries, k, target, props);
    }
    assert entries[..|entries|] == entries;
  }

  const CommonTemplates := "common"
  const NoSuchDirectory := "ENOENT: no such file or directory, scandir"

  /** `${value}` in a template literal. */
  function TemplateText(v: Option<PropValue>): string {
    match v
    case None => "undefined"
    case Some(PBool(b)) => if b then "true" else "false"
    case Some(PString(s)) => s
    case Some(PList(items)) => Text.Join(items, ",")
    case Some(PGroups(groups)) => Text.Join(seq(|groups|, _ => "[object Object]"), ",")
  }

  /** The name of the language's template directory: `templates/${props.language}`. */
  function LanguageTemplates(props: map<string, PropValue>): string {
    TemplateText(if "language" in props then Some(props["language"]) else None)
  }

  /** One walk of `generate`: a template directory that is missing still has its target
      directory created before `readdir` fails. */
  function WalkWrites(templates: map<string, seq<Entry>>, dir: string, context: Context): seq<Write> {
    if dir in templates then TreeWrites([dir], templates[dir], context.target, context.props)
    else [MakeDir(context.target)]
  }

  /** `generate()`: the common templates, then the language's, both into the target. */
  function GenerateWrites(g: PluginGenerator, templates: map<string, seq<Entry>>): seq<Write> {
    WalkWrites(templates, CommonTemplates, g.context) + WalkWrites(templates, LanguageTemplates(g.context.props), g.context)
  }

  /** `generate()` over the template directories `templates` (each top-level directory of
      `templates/` by name, with its listing). */
  method Generate(g: PluginGenerator, templates: map<string, seq<Entry>>, fs: FileSystem) returns (r: Result<()>)
    modifies fs
    ensures fs.State() == Perform(old(fs.State()), GenerateWrites(g, templates))
    ensures r.Ok? <==> CommonTemplates in templates && LanguageTemplates(g.context.props) in templates
    ensures r.Err? ==> r.message == NoSuchDirectory
  {
    ghost var start := fs.State();
    var common := Walk(g, templates, CommonTemplates, fs);
    var language := Walk(g, templates, LanguageTemplates(g.context.props), fs);
    PerformAppend(start, WalkWrites(templates, CommonTemplates, g.context),
      WalkWrites(templates, LanguageTemplates(g.context.props), g.context));
    r := if common && language then Ok(()) else Err(NoSuchDirectory);
  }

  /** One `#generateFiles` of `generate()` on the template directory `dir`: `found` is false
      when `readdir` fails on a missing directory. */
  method Walk(g: PluginGenerator, templates: map<string, seq<Entry>>, dir: string, fs: FileSystem) returns (found: bool)
    modifies fs
    ensures fs.State() == Perform(old(fs.State()), WalkWrites(templates, dir, g.context))
    ensures found <==> dir in templates
  {
    found := dir in templates;
    if found {
      GenerateFiles(fs, [dir], templates[dir], g.context.target, g.context.props);
    } else {
      fs.MakeDirectory(g.context.target);
      assert [MakeDir(g.context.target)][..0] == [];
    }
  }

  /** Everything `generate()` writes lies below the target and mirrors one of the two template
      trees, and every file is written after its directory was created. */
  lemma GenerateStaysInTarget(g: PluginGenerator, templates: map<string, seq<Entry>>)
    ensures forall w :: w in GenerateWrites(g, templates) ==>
      Mirrors([CommonTemplates], g.context.target, g.context.props, w) ||
      Mirrors([LanguageTemplates(g.context.props)], g.context.target, g.context.props, w)
    ensures DirectoryFirst(GenerateWrites(g, templates))
  {
    var target, props := g.context.target, g.context.props;
    var common := WalkWrites(templates, CommonTemplates, g.context);
    var language := WalkWrites(templates, LanguageTemplates(props), g.context);
    assert target[..|target|] == target;
    if CommonTemplates in templates {
      TreeMirrors([CommonTemplates], templates[CommonTemplates], target, props);
      TreeDirectoryFirst([CommonTemplates], templates[CommonTemplates], target, props);
    }
    if LanguageTemplates(props) in templates {
      TreeMirrors([LanguageTemplates(props)], templates[LanguageTemplates(props)], target, props);
      TreeDirectoryFirst([LanguageTemplates(props)], templates[LanguageTemplates(props)], target, props);
    }
    var all := common + language;
    forall k | 0 <= k < |all| && all[k].PutFile? ensures exists j :: 0 <= j < k && all[j] == MakeDir(Parent(all[k].file)) {
      if k < |common| {
        var j :| 0 <= j < k && common[j] == MakeDir(Parent(common[k].file));
        assert all[j] == common[j];
      } else {
        assert all[k] == language[k - |common|];
        var j :| 0 <= j < k - |common| && language[j] == MakeDir(Parent(language[k - |common|].file));
        assert all[j + |common|] == language[j];
      }
    }
  }
}
