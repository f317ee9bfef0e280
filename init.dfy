/** `atomemo plugin init` (src/commands/plugin/init.ts): the validators of the answers, the
    reconciliation of the `interactive` flag with the `name` flag, the interactive interview
    that fills the flags field by field, and the hand-over to the plugin generator. */
module PluginInit {
  import opened Wrappers
  import Text
  import opened Command
  import Generator

  // ---------------------------------------------------------------------------
  // The anchored patterns of the validators

  /** The character classes the validators' regular expressions use. */
  datatype CharClass =
    | LowerLetter         // [a-z]
    | LowerLetterOrDigit  // [a-z0-9]
    | NameChar            // [a-z0-9_-]
    | NotLineTerminator   // .

  predicate InClass(cls: CharClass, c: char) {
    match cls
    case LowerLetter => 'a' <= c <= 'z'
    case LowerLetterOrDigit => 'a' <= c <= 'z' || '0' <= c <= '9'
    case NameChar => 'a' <= c <= 'z' || '0' <= c <= '9' || c == '_' || c == '-'
    case NotLineTerminator => !Text.IsLineTerminator(c)
  }

  /** `cls{lo,hi}`; a bare class is `cls{1,1}`. */
  datatype Piece = Piece(cls: CharClass, lo: nat, hi: nat)

  /** `/^[a-z][a-z0-9_-]{2,62}[a-z0-9]$/`, the plugin-name pattern. */
  const NamePattern: seq<Piece> := [Piece(LowerLetter, 1, 1), Piece(NameChar, 2, 62), Piece(LowerLetterOrDigit, 1, 1)]
  /** `/^.{16,256}$/`, the description pattern. */
  const DescriptionPattern: seq<Piece> := [Piece(NotLineTerminator, 16, 256)]
  /** `/^.{2,64}$/`, the author pattern. */
  const AuthorPattern: seq<Piece> := [Piece(NotLineTerminator, 2, 64)]

  predicate AllIn(cls: CharClass, s: string) {
    forall i :: 0 <= i < |s| ==> InClass(cls, s[i])
  }

  /** How many leading characters of `s`, at most `limit`, a greedy `cls{…,limit}` consumes. */
  function GreedyRun(cls: CharClass, s: string, limit: nat): (n: nat)
    ensures n <= limit && n <= |s|
    ensures forall i :: 0 <= i < n ==> InClass(cls, s[i])
    ensures n < limit && n < |s| ==> !InClass(cls, s[n])
    decreases limit
  {
    if limit == 0 || |s| == 0 || !InClass(cls, s[0]) then 0 else 1 + GreedyRun(cls, s[1..], limit - 1)
  }

  /** `pattern.test(s)` for a pattern anchored at both ends: each piece consumes greedily and
      gives characters back one at a time while the rest of the pattern fails. */
  function Matches(pattern: seq<Piece>, s: string): bool
    decreases |pattern|, |s| + 1
  {
    if pattern == [] then s == []
    else TryFrom(pattern, s, GreedyRun(pattern[0].cls, s, pattern[0].hi))
  }

  /** The backtracking of the first piece, from `n` consumed characters down to its minimum. */
  function TryFrom(pattern: seq<Piece>, s: string, n: nat): bool
    requires pattern != [] && n <= |s|
    decreases |pattern|, n
  {
    if n < pattern[0].lo then false
    else Matches(pattern[1..], s[n..]) || (n > 0 && TryFrom(pattern, s, n - 1))
  }

  lemma {:induction false} TryFromMeaning(pattern: seq<Piece>, s: string, n: nat)
    requires pattern != [] && n <= |s|
    ensures TryFrom(pattern, s, n) <==> exists k :: pattern[0].lo <= k <= n && Matches(pattern[1..], s[k..])
    decreases n
  {
    if n >= pattern[0].lo && n > 0 {
      TryFromMeaning(pattern, s, n - 1);
    }
  }

  /** A greedy run reaches at least every length whose characters are all in the class. */
  lemma {:induction false} RunIsMaximal(cls: CharClass, s: string, limit: nat, k: nat)
    requires k <= limit && k <= |s| && AllIn(cls, s[..k])
    ensures k <= GreedyRun(cls, s, limit)
    decreases k
  {
    if k > 0 {
      var lead, rest := s[..k], s[1..][..k - 1];
      assert lead[0] == s[0];
      forall i | 0 <= i < |rest|
        ensures InClass(cls, rest[i])
      {
        assert rest[i] == lead[i + 1];
      }
      RunIsMaximal(cls, s[1..], limit - 1, k - 1);
    }
  }

  /** Backtracking explores every split: the first piece takes some admissible prefix of its
      class and the rest of the pattern matches what is left. */
  lemma MatchesMeaning(pattern: seq<Piece>, s: string)
    requires pattern != []
    ensures Matches(pattern, s) <==>
      exists k :: pattern[0].lo <= k <= pattern[0].hi && k <= |s| && AllIn(pattern[0].cls, s[..k]) && Matches(pattern[1..], s[k..])
  {
    var p := pattern[0];
    var n := GreedyRun(p.cls, s, p.hi);
    TryFromMeaning(pattern, s, n);
    if Matches(pattern, s) {
      var k :| p.lo <= k <= n && Matches(pattern[1..], s[k..]);
      assert AllIn(p.cls, s[..k]);
    }
    if exists k :: p.lo <= k <= p.hi && k <= |s| && AllIn(p.cls, s[..k]) && Matches(pattern[1..], s[k..]) {
      var k :| p.lo <= k <= p.hi && k <= |s| && AllIn(p.cls, s[..k]) && Matches(pattern[1..], s[k..]);
      RunIsMaximal(p.cls, s, p.hi, k);
    }
  }

  /** A one-piece pattern `^cls{lo,hi}$` matches exactly the strings of that class whose length
      lies in the range. */
  lemma SinglePiece(p: Piece, s: string)
    ensures Matches([p], s) <==> p.lo <= |s| <= p.hi && AllIn(p.cls, s)
  {
    var rest: seq<Piece> := [p][1..];
    assert rest == [];
    MatchesMeaning([p], s);
    if Matches([p], s) {
      var k :| p.lo <= k <= p.hi && k <= |s| && AllIn(p.cls, s[..k]) && Matches(rest, s[k..]);
      assert s[k..] == [];
      assert s[..k] == s;
    }
    if p.lo <= |s| <= p.hi && AllIn(p.cls, s) {
      assert s[..|s|] == s;
      assert Matches(rest, s[|s|..]);
    }
  }

  /** The last piece of the name pattern on its own: one lowercase letter or digit. */
  lemma LastPiece(u: string)
    ensures Matches([Piece(LowerLetterOrDigit, 1, 1)], u) <==> |u| == 1 && InClass(LowerLetterOrDigit, u[0])
  {
    SinglePiece(Piece(LowerLetterOrDigit, 1, 1), u);
  }

  lemma TailShape(t: string)
    ensures Matches(NamePattern[1..], t) <==>
      3 <= |t| <= 63 && AllIn(NameChar, t[..|t| - 1]) && InClass(LowerLetterOrDigit, t[|t| - 1])
  {
    var last := [Piece(LowerLetterOrDigit, 1, 1)];
    var tail := [Piece(NameChar, 2, 62)] + last;
    assert NamePattern[1..] == tail;
    assert tail[0] == Piece(NameChar, 2, 62) && tail[1..] == last;
    MatchesMeaning(tail, t);
    if Matches(tail, t) {
      var j :| 2 <= j <= 62 && j <= |t| && AllIn(NameChar, t[..j]) && Matches(last, t[j..]);
      LastPiece(t[j..]);
      assert t[j..][0] == t[|t| - 1];
    }
    if 3 <= |t| <= 63 && AllIn(NameChar, t[..|t| - 1]) && InClass(LowerLetterOrDigit, t[|t| - 1]) {
      var j := |t| - 1;
      LastPiece(t[j..]);
      assert t[j..][0] == t[|t| - 1];
      assert Matches(last, t[j..]);
    }
  }

  lemma HeadShape(s: string)
    ensures Matches(NamePattern, s) <==>
      |s| >= 1 && InClass(LowerLetter, s[0]) && Matches(NamePattern[1..], s[1..])
  {
    MatchesMeaning(NamePattern, s);
    if |s| >= 1 {
      assert AllIn(LowerLetter, s[..1]) <==> InClass(LowerLetter, s[0]) by {
        assert s[..1][0] == s[0];
      }
    }
  }

  lemma NameChars(s: string)
    requires |s| >= 2
    ensures AllIn(NameChar, s) <==>
      InClass(NameChar, s[0]) && AllIn(NameChar, s[1..][..|s| - 2]) && InClass(NameChar, s[|s| - 1])
  {
    var middle := s[1..][..|s| - 2];
    assert forall i :: 0 <= i < |middle| ==> middle[i] == s[i + 1];
    if InClass(NameChar, s[0]) && AllIn(NameChar, middle) && InClass(NameChar, s[|s| - 1]) {
      forall i | 0 <= i < |s|
        ensures InClass(NameChar, s[i])
      {
        if 0 < i < |s| - 1 {
          assert middle[i - 1] == s[i];
        }
      }
    }
  }

  /** The name pattern accepts exactly the strings of 4 to 64 characters from `[a-z0-9_-]`
      that start with a lowercase letter and end with a lowercase letter or a digit. */
  lemma NameShape(s: string)
    ensures Matches(NamePattern, s) <==>
      && 4 <= |s| <= 64
      && AllIn(NameChar, s)
      && InClass(LowerLetter, s[0])
      && InClass(LowerLetterOrDigit, s[|s| - 1])
  {
    HeadShape(s);
    if |s| >= 1 {
      TailShape(s[1..]);
    }
    if |s| >= 4 {
      NameChars(s);
      assert s[1..][|s| - 2] == s[|s| - 1];
    }
  }

  /** `nameIsValid(name)`: a string the name pattern accepts. */
  predicate NameIsValid(name: Option<string>) {
    name.Some? && Matches(NamePattern, name.value)
  }

  /** The description pattern accepts exactly one line of 16 to 256 characters. */
  lemma DescriptionShape(s: string)
    ensures Matches(DescriptionPattern, s) <==> 16 <= |s| <= 256 && Text.SingleLine(s)
  {
    SinglePiece(DescriptionPattern[0], s);
  }

  /** The author pattern accepts exactly one line of 2 to 64 characters. */
  lemma AuthorShape(s: string)
    ensures Matches(AuthorPattern, s) <==> 2 <= |s| <= 64 && Text.SingleLine(s)
  {
    SinglePiece(AuthorPattern[0], s);
  }

  /** The names the command's tests refuse: too short, a leading digit, a trailing hyphen. */
  lemma RefusedNames()
    ensures !NameIsValid(None)
    ensures !NameIsValid(Some("abc"))
    ensures !NameIsValid(Some("1plugin"))
    ensures !NameIsValid(Some("my-plugin-"))
  {
    NameShape("abc");
    NameShape("1plugin");
    NameShape("my-plugin-");
  }

  /** A name the command's tests accept: lowercase words joined by hyphens. */
  lemma AcceptedName()
    ensures NameIsValid(Some("my-test-plugin"))
  {
    var s := "my-test-plugin";
    assert AllIn(NameChar, s) by {
      forall i | 0 <= i < |s|
        ensures InClass(NameChar, s[i])
      {
        assert s[i] in "-abcdefghijklmnopqrstuvwxyz";
      }
    }
    NameShape(s);
  }

  /** A name the command's tests accept: digits are allowed, at the end too. */
  lemma AcceptedNameWithDigits()
    ensures NameIsValid(Some("my-plugin-123"))
  {
    var s := "my-plugin-123";
    assert AllIn(NameChar, s) by {
      forall i | 0 <= i < |s|
        ensures InClass(NameChar, s[i])
      {
        assert s[i] in "-123abcdefghijklmnopqrstuvwxyz";
      }
    }
    NameShape(s);
  }

  /** A name the command's tests accept: underscores are allowed inside. */
  lemma AcceptedNameWithUnderscores()
    ensures NameIsValid(Some("my_test_plugin"))
  {
    var s := "my_test_plugin";
    assert AllIn(NameChar, s) by {
      forall i | 0 <= i < |s|
        ensures InClass(NameChar, s[i])
      {
        assert s[i] in "_abcdefghijklmnopqrstuvwxyz";
      }
    }
    NameShape(s);
  }

  // ---------------------------------------------------------------------------
  // The prompts of the interactive mode

  /** The questions of the interactive mode, in the order it asks them. */
  datatype Question = Name | Description | Author | Email | Url | Locales | Language | PluginType

  const Questions: seq<Question> := [Name, Description, Author, Email, Url, Locales, Language, PluginType]

  const AllLocales: seq<string> := ["en_US", "zh_Hans", "ja_JP"]
  /** The locales the checkbox lets the user tick: English is listed but disabled. */
  const SelectableLocales: seq<string> := ["zh_Hans", "ja_JP"]
  const LanguageChoices: seq<string> := ["elixir", "python", "typescript"]
  const TypeChoices: seq<string> := ["extension", "llm", "tool", "trigger"]

  /** What the user does at a prompt: submits a line, submits the ticked boxes, or makes the
      prompt throw an error with the given `name`; when the replies run out the prompt is
      closed, which throws `ExitPromptError`. */
  datatype Reply =
    | Entered(text: string)
    | Checked(values: seq<string>)
    | Failed(errorName: string, message: string)

  /** What a prompt resolves with: a line of text or the values of the ticked boxes. */
  datatype FlagValue = Typed(text: string) | Picked(values: seq<string>)

  /** Why the interview stopped: the prompt was cancelled (`ExitPromptError`), or another
      error is rethrown with its message. */
  datatype Stop = ExitPrompt | Rethrown(message: string)

  datatype Answer = Answered(value: FlagValue) | Stopped(stop: Stop)

  /** `values` occurs in `choices` in the same order, possibly with gaps. */
  predicate IsSubsequence(values: seq<string>, choices: seq<string>)
    decreases |choices|
  {
    if values == [] then true
    else if choices == [] then false
    else if values[0] == choices[0] then IsSubsequence(values[1..], choices[1..])
    else IsSubsequence(values, choices[1..])
  }

  /** The value an `input` prompt submits: an empty line takes the prompt's default. */
  function DefaultText(q: Question): Option<string> {
    match q
    case Description => Some("A brief description of the plugin's functionality")
    case Author => Some("John Doe")
    case Email => Some("john.doe@example.com")
    case Url => Some("https://github.com/[user]/[repo]")
    case _ => None
  }

  /** The `input` validation of the text prompts. The e-mail pattern and the URL check are
      not modelled: every e-mail and URL line is accepted. */
  predicate TextAccepted(q: Question, v: string) {
    match q
    case Name => Matches(NamePattern, v)
    case Description => Matches(DescriptionPattern, v)
    case Author => Matches(AuthorPattern, v)
    case _ => true
  }

  /** What question `q` may resolve with. */
  predicate Acceptable(q: Question, v: FlagValue) {
    match q
    case Locales => v.Picked? && IsSubsequence(v.values, SelectableLocales)
    case Language => v.Typed? && v.text in LanguageChoices
    case PluginType => v.Typed? && v.text in TypeChoices
    case _ => v.Typed? && TextAccepted(q, v.text)
  }

  /** The value the prompt for `q` resolves with on reply `r`, or `None` when it shows its
      error and asks again. */
  function Resolved(q: Question, r: Reply): (v: Option<FlagValue>)
    requires !r.Failed?
    ensures v.Some? ==> Acceptable(q, v.value)
  {
    match q
    case Locales =>
      if r.Checked? && IsSubsequence(r.values, SelectableLocales) then Some(Picked(r.values)) else None
    case Language =>
      if r.Entered? && r.text in LanguageChoices then Some(Typed(r.text)) else None
    case PluginType =>
      if r.Entered? && r.text in TypeChoices then Some(Typed(r.text)) else None
    case _ =>
      if r.Checked? then None
      else
        var text := if r.text == "" then DefaultText(q).GetOr("") else r.text;
        if TextAccepted(q, text) then Some(Typed(text)) else None
  }

  /** How a prompt error ends the interview: `ExitPromptError` is a cancelled prompt, any
      other error is rethrown. */
  function StopOf(r: Reply): (s: Stop)
    requires r.Failed?
    ensures s == ExitPrompt <==> r.errorName == "ExitPromptError"
    ensures s.Rethrown? ==> s.message == r.message
  {
    if r.errorName == "ExitPromptError" then ExitPrompt else Rethrown(r.message)
  }

  /** One prompt over the pending replies: the answer it settles on and the replies left. */
  function Prompted(q: Question, replies: seq<Reply>): (r: (Answer, seq<Reply>))
    ensures |r.1| <= |replies|
    ensures r.0.Answered? ==> Acceptable(q, r.0.value)
    decreases |replies|
  {
    if replies == [] then (Stopped(ExitPrompt), [])
    else if replies[0].Failed? then (Stopped(StopOf(replies[0])), replies[1..])
    else match Resolved(q, replies[0])
      case Some(v) => (Answered(v), replies[1..])
      case None => Prompted(q, replies[1..])
  }

  /** A reply the prompt for `q` rejects: it shows its error and asks again. */
  predicate Unsettled(q: Question, r: Reply) {
    !r.Failed? && Resolved(q, r).None?
  }

  /** The index of the first reply that settles the prompt for `q` (it throws or resolves),
      or `|replies|` when none does. */
  function Settling(q: Question, replies: seq<Reply>): (n: nat)
    ensures n <= |replies|
    ensures forall i :: 0 <= i < n ==> Unsettled(q, replies[i])
    ensures n < |replies| ==> !Unsettled(q, replies[n])
  {
    if replies == [] || !Unsettled(q, replies[0]) then 0 else 1 + Settling(q, replies[1..])
  }

  /** The prompt reads its replies up to the first that settles it and stops there: it resolves
      with that reply's value, or ends the interview as that reply's error says; when no reply
      settles it, the replies run out and the prompt is closed as if cancelled. */
  lemma {:induction false} PromptSettles(q: Question, replies: seq<Reply>)
    ensures var n, r := Settling(q, replies), Prompted(q, replies);
      if n == |replies| then r == (Stopped(ExitPrompt), [])
      else
        && r.1 == replies[n + 1..]
        && r.0 == if replies[n].Failed? then Stopped(StopOf(replies[n])) else Answered(Resolved(q, replies[n]).value)
    decreases |replies|
  {
    if replies != [] && Unsettled(q, replies[0]) {
      var n := Settling(q, replies[1..]);
      PromptSettles(q, replies[1..]);
      assert Prompted(q, replies) == Prompted(q, replies[1..]) && Settling(q, replies) == n + 1;
      if n < |replies| - 1 {
        assert replies[1..][n] == replies[n + 1];
        assert replies[1..][n + 1..] == replies[n + 2..];
      }
    }
  }

  /** The index of the first reply that makes a prompt throw, or `|replies|` when none does. */
  function FirstFailed(replies: seq<Reply>): (j: nat)
    ensures j <= |replies|
    ensures j < |replies| ==> replies[j].Failed?
    ensures forall i :: 0 <= i < j ==> !replies[i].Failed?
  {
    if replies == [] || replies[0].Failed? then 0 else 1 + FirstFailed(replies[1..])
  }

  /** Dropping replies that do not throw moves the first error back by as many. */
  lemma FirstFailedAfter(replies: seq<Reply>, m: nat)
    requires m <= FirstFailed(replies)
    ensures FirstFailed(replies[m..]) == FirstFailed(replies) - m
  {
    var j, j' := FirstFailed(replies), FirstFailed(replies[m..]);
  }

  /** The answers collected so far, why the interview stopped (if it did) and the replies left. */
  datatype Progress = Progress(answers: seq<FlagValue>, stop: Option<Stop>, rest: seq<Reply>)

  function Then(got: seq<FlagValue>, p: Progress): Progress {
    Progress(got + p.answers, p.stop, p.rest)
  }

  /** The interview from question `k` on: each question takes its answer in turn, and the
      first prompt that throws ends it. */
  function Interview(k: nat, replies: seq<Reply>): (r: Progress)
    requires k <= |Questions|
    ensures |r.answers| <= |Questions| - k
    ensures r.stop.None? <==> |r.answers| == |Questions| - k
    ensures forall i :: 0 <= i < |r.answers| ==> Acceptable(Questions[k + i], r.answers[i])
    decreases |Questions| - k
  {
    if k == |Questions| then Progress([], None, replies)
    else
      var (a, rest) := Prompted(Questions[k], replies);
      match a
      case Stopped(stop) => Progress([], Some(stop), rest)
      case Answered(v) =>
        var next := Interview(k + 1, rest);
        var r := Then([v], next);
        forall i | 0 < i < |r.answers| ensures Acceptable(Questions[k + i], r.answers[i]) {
          assert r.answers[i] == next.answers[i - 1] && k + i == (k + 1) + (i - 1);
        }
        r
  }

  /** The first reply that makes a prompt throw ends the interview, if the interview gets to
      it: the interview reads the replies up to it and stops as its error says. An interview
      that runs out of replies first is stopped as cancelled, and one that ends without
      stopping has read no error. */
  predicate StopsAtFirstError(replies: seq<Reply>, p: Progress) {
    var j, read := FirstFailed(replies), |replies| - |p.rest|;
    && read >= 0 && p.rest == replies[read..]
    && (p.stop.None? ==> read <= j)
    && (p.stop.Some? && j < |replies| ==> read == j + 1 && p.stop.value == StopOf(replies[j]))
    && (p.stop.Some? && j == |replies| ==> p.rest == [] && p.stop.value == ExitPrompt)
  }

  lemma {:induction false} InterviewStopsAtFirstError(k: nat, replies: seq<Reply>)
    requires k <= |Questions|
    ensures StopsAtFirstError(replies, Interview(k, replies))
    decreases |Questions| - k, 1
  {
    if k == |Questions| {
      assert replies[0..] == replies;
    } else if Prompted(Questions[k], replies).0.Stopped? {
      StopsAtPrompt(k, replies);
    } else {
      AnswersAtPrompt(k, replies);
    }
  }

  /** Question `k` stops the interview at the reply that settles its prompt. */
  lemma StopsAtPrompt(k: nat, replies: seq<Reply>)
    requires k < |Questions| && Prompted(Questions[k], replies).0.Stopped?
    ensures StopsAtFirstError(replies, Interview(k, replies))
  {
    var q := Questions[k];
    var r := Prompted(q, replies);
    InterviewStep(k, replies);
    PromptSettles(q, replies);
    SettlingBeforeError(q, replies);
    StoppedAtPrompt(q, replies, r.0.stop, r.1);
  }

  /** Question `k` takes its answer and the rest of the interview reads on from there. */
  lemma {:induction false} AnswersAtPrompt(k: nat, replies: seq<Reply>)
    requires k < |Questions| && Prompted(Questions[k], replies).0.Answered?
    ensures StopsAtFirstError(replies, Interview(k, replies))
    decreases |Questions| - k, 0
  {
    var r := Prompted(Questions[k], replies);
    InterviewStopsAtFirstError(k + 1, r.1);
    InterviewStep(k, replies);
    assert Interview(k, replies) == Then([r.0.value], Interview(k + 1, r.1));
    AnsweredBeforeError(Questions[k], replies);
    AnsweredThenStops(replies, Settling(Questions[k], replies), r.1, Interview(k + 1, r.1), r.0.value);
  }

  /** An answered prompt read no error: it resolved at a reply before the first one that throws. */
  lemma AnsweredBeforeError(q: Question, replies: seq<Reply>)
    requires Prompted(q, replies).0.Answered?
    ensures Settling(q, replies) < FirstFailed(replies)
    ensures Prompted(q, replies).1 == replies[Settling(q, replies) + 1..]
  {
    PromptSettles(q, replies);
    SettlingBeforeError(q, replies);
  }

  /** A prompt settles no later than at the first error. */
  lemma SettlingBeforeError(q: Question, replies: seq<Reply>)
    ensures Settling(q, replies) <= FirstFailed(replies)
    ensures Settling(q, replies) < |replies| && replies[Settling(q, replies)].Failed? ==>
      Settling(q, replies) == FirstFailed(replies)
  {
  }

  lemma StoppedAtPrompt(q: Question, replies: seq<Reply>, stop: Stop, rest: seq<Reply>)
    requires Settling(q, replies) <= FirstFailed(replies)
    requires Settling(q, replies) == |replies| ==> stop == ExitPrompt && rest == []
    requires Settling(q, replies) < |replies| ==>
      && replies[Settling(q, replies)].Failed? && Settling(q, replies) == FirstFailed(replies)
      && stop == StopOf(replies[Settling(q, replies)]) && rest == replies[Settling(q, replies) + 1..]
    ensures StopsAtFirstError(replies, Progress([], Some(stop), rest))
  {
  }

  /** An answered prompt that read the replies up to `n` hands the rest to the next question. */
  lemma AnsweredThenStops(replies: seq<Reply>, n: nat, rest: seq<Reply>, p: Progress, v: FlagValue)
    requires n < FirstFailed(replies) && rest == replies[n + 1..]
    requires StopsAtFirstError(rest, p)
    ensures StopsAtFirstError(replies, Then([v], p))
  {
    var j := FirstFailed(replies);
    FirstFailedAfter(replies, n + 1);
    SuffixOfSuffix(replies, n + 1, p.rest);
    if p.stop.Some? && j < |replies| {
      assert replies[n + 1..][j - n - 1] == replies[j];
    }
  }

  /** A suffix of a suffix of `s` is a suffix of `s`. */
  lemma SuffixOfSuffix(s: seq<Reply>, m: nat, t: seq<Reply>)
    requires m <= |s| && |t| <= |s| - m && t == s[m..][|s| - m - |t|..]
    ensures t == s[|s| - |t|..]
  {
  }

  /** One step of the interview: question `k` answered, or the interview stopped there. */
  lemma InterviewStep(k: nat, replies: seq<Reply>)
    requires k < |Questions|
    ensures var (a, rest) := Prompted(Questions[k], replies);
      && (a.Stopped? ==> Interview(k, replies) == Progress([], Some(a.stop), rest))
      && (a.Answered? ==> Interview(k, replies) == Then([a.value], Interview(k + 1, rest)))
  {
  }

  lemma Advance(whole: Progress, got: seq<FlagValue>, k: nat, replies: seq<Reply>)
    requires k < |Questions|
    requires whole == Then(got, Interview(k, replies))
    requires Prompted(Questions[k], replies).0.Answered?
    ensures var (a, rest) := Prompted(Questions[k], replies);
      whole == Then(got + [a.value], Interview(k + 1, rest))
  {
    var (a, rest) := Prompted(Questions[k], replies);
    InterviewStep(k, replies);
    var next := Interview(k + 1, rest);
    assert got + ([a.value] + next.answers) == (got + [a.value]) + next.answers;
  }

  lemma Halt(whole: Progress, got: seq<FlagValue>, k: nat, replies: seq<Reply>)
    requires k < |Questions|
    requires whole == Then(got, Interview(k, replies))
    requires Prompted(Questions[k], replies).0.Stopped?
    ensures var (a, rest) := Prompted(Questions[k], replies);
      whole == Progress(got, Some(a.stop), rest)
  {
    InterviewStep(k, replies);
    assert got + [] == got;
  }

  /** `["en_US", ...values]`, the result of `collectLocales`. */
  function LocaleList(values: seq<string>): seq<string> {
    ["en_US"] + values
  }

  predicate Distinct(xs: seq<string>) {
    forall i, j :: 0 <= i < j < |xs| ==> xs[i] != xs[j]
  }

  lemma {:induction false} SubsequenceOfDistinct(values: seq<string>, choices: seq<string>)
    requires IsSubsequence(values, choices) && Distinct(choices)
    ensures Distinct(values) && forall v :: v in values ==> v in choices
    decreases |choices|
  {
    if values != [] && choices != [] {
      assert Distinct(choices[1..]) by {
        forall i, j | 0 <= i < j < |choices| - 1
          ensures choices[1..][i] != choices[1..][j]
        {
          assert choices[1..][i] == choices[i + 1] && choices[1..][j] == choices[j + 1];
        }
      }
      if values[0] == choices[0] {
        SubsequenceOfDistinct(values[1..], choices[1..]);
        forall i, j | 0 <= i < j < |values|
          ensures values[i] != values[j]
        {
          if i == 0 {
            assert values[j] == values[1..][j - 1];
            assert values[j] in choices[1..];
          } else {
            assert values[i] == values[1..][i - 1] && values[j] == values[1..][j - 1];
          }
        }
        forall v | v in values
          ensures v in choices
        {
          if v != values[0] {
            assert v in values[1..];
          }
        }
      } else {
        SubsequenceOfDistinct(values, choices[1..]);
      }
    }
  }

  /** Whatever boxes are ticked, the locales start with `en_US`, list no locale twice and
      keep the order of `LOCALES`. */
  lemma LocalesCollected(values: seq<string>)
    requires IsSubsequence(values, SelectableLocales)
    ensures var r := LocaleList(values);
      r[0] == "en_US" && r[1..] == values && IsSubsequence(r, AllLocales) && Distinct(r)
  {
    var r := LocaleList(values);
    assert r[1..] == values;
    assert AllLocales[1..] == SelectableLocales;
    SubsequenceOfDistinct(r, AllLocales);
  }

  // ---------------------------------------------------------------------------
  // The flags

  /** The parsed flags of `plugin init`; the options without a default are absent until given. */
  datatype FlagValues = FlagValues(
    interactive: bool,
    name: Option<string>,
    description: string,
    author: string,
    email: string,
    url: string,
    locales: Option<seq<string>>,
    language: Option<string>,
    pluginType: Option<string>)

  function TextOf(v: FlagValue): string {
    if v.Typed? then v.text else ""
  }

  function PicksOf(v: FlagValue): seq<string> {
    if v.Picked? then v.values else []
  }

  /** The assignment the interactive mode makes with the answer to question `q`. */
  function SetField(f: FlagValues, q: Question, v: FlagValue): FlagValues {
    match q
    case Name => f.(name := Some(TextOf(v)))
    case Description => f.(description := TextOf(v))
    case Author => f.(author := TextOf(v))
    case Email => f.(email := TextOf(v))
    case Url => f.(url := TextOf(v))
    case Locales => f.(locales := Some(LocaleList(PicksOf(v))))
    case Language => f.(language := Some(TextOf(v)))
    case PluginType => f.(pluginType := Some(TextOf(v)))
  }

  /** The flags after the first `|answers|` questions were answered, in order. */
  function Assign(f: FlagValues, answers: seq<FlagValue>): FlagValues
    requires |answers| <= |Questions|
    decreases |answers|
  {
    if answers == [] then f
    else SetField(Assign(f, answers[..|answers| - 1]), Questions[|answers| - 1], answers[|answers| - 1])
  }

  lemma AssignAppend(f: FlagValues, got: seq<FlagValue>, v: FlagValue)
    requires |got| < |Questions|
    ensures Assign(f, got + [v]) == SetField(Assign(f, got), Questions[|got|], v)
  {
    assert (got + [v])[..|got|] == got;
  }

  /** The field question `q` fills holds the same value in `a` and `b`. */
  predicate SameField(a: FlagValues, b: FlagValues, q: Question) {
    match q
    case Name => a.name == b.name
    case Description => a.description == b.description
    case Author => a.author == b.author
    case Email => a.email == b.email
    case Url => a.url == b.url
    case Locales => a.locales == b.locales
    case Language => a.language == b.language
    case PluginType => a.pluginType == b.pluginType
  }

  /** Setting the field of `q` leaves the field of every other question and `interactive` as they were. */
  lemma SetFieldKeeps(a: FlagValues, q: Question, v: FlagValue, p: Question)
    requires q != p
    ensures SameField(SetField(a, q, v), a, p)
    ensures SetField(a, q, v).interactive == a.interactive
  {
  }

  /** Setting the field of `q` to the same value makes it agree, whatever it held before. */
  lemma SetFieldSets(a: FlagValues, b: FlagValues, q: Question, v: FlagValue)
    ensures SameField(SetField(a, q, v), SetField(b, q, v), q)
    ensures SetField(a, q, v).interactive == a.interactive
  {
  }

  lemma SameFieldTrans(a: FlagValues, b: FlagValues, c: FlagValues, q: Question)
    requires SameField(a, b, q) && SameField(b, c, q)
    ensures SameField(a, c, q)
  {
  }

  lemma QuestionsDistinct(i: nat, j: nat)
    requires i < j < |Questions|
    ensures Questions[i] != Questions[j]
  {
  }

  lemma {:induction false} AssignAt(f: FlagValues, answers: seq<FlagValue>, i: nat)
    requires i < |answers| <= |Questions|
    ensures SameField(Assign(f, answers), SetField(f, Questions[i], answers[i]), Questions[i])
    ensures Assign(f, answers).interactive == f.interactive
    decreases |answers|
  {
    var last := |answers| - 1;
    var prefix := answers[..last];
    var before := Assign(f, prefix);
    assert Assign(f, answers) == SetField(before, Questions[last], answers[last]);
    if i < last {
      AssignAt(f, prefix, i);
      assert prefix[i] == answers[i];
      QuestionsDistinct(i, last);
      SetFieldKeeps(before, Questions[last], answers[last], Questions[i]);
      SameFieldTrans(Assign(f, answers), before, SetField(f, Questions[i], answers[i]), Questions[i]);
    } else {
      SetFieldSets(before, f, Questions[i], answers[i]);
      if last > 0 {
        AssignAt(f, prefix, 0);
      }
    }
  }

  /** The name prompt of a finished interview leaves a valid name. */
  lemma InterviewedName(f: FlagValues, answers: seq<FlagValue>)
    requires |answers| == |Questions|
    requires forall i :: 0 <= i < |answers| ==> Acceptable(Questions[i], answers[i])
    ensures NameIsValid(Assign(f, answers).name)
  {
    AssignAt(f, answers, 0);
    assert Acceptable(Questions[0], answers[0]);
  }

  /** The description and author prompts leave texts their patterns accept. */
  lemma InterviewedTexts(f: FlagValues, answers: seq<FlagValue>)
    requires |answers| == |Questions|
    requires forall i :: 0 <= i < |answers| ==> Acceptable(Questions[i], answers[i])
    ensures Matches(DescriptionPattern, Assign(f, answers).description)
    ensures Matches(AuthorPattern, Assign(f, answers).author)
  {
    AssignAt(f, answers, 1);
    assert Acceptable(Questions[1], answers[1]);
    AssignAt(f, answers, 2);
    assert Acceptable(Questions[2], answers[2]);
  }

  /** The locales prompt leaves a list that starts with `en_US` and keeps the menu's order. */
  lemma InterviewedLocales(f: FlagValues, answers: seq<FlagValue>)
    requires |answers| == |Questions|
    requires forall i :: 0 <= i < |answers| ==> Acceptable(Questions[i], answers[i])
    ensures var g := Assign(f, answers);
      g.locales.Some? && |g.locales.value| > 0 && g.locales.value[0] == "en_US" && IsSubsequence(g.locales.value, AllLocales)
  {
    AssignAt(f, answers, 5);
    assert Acceptable(Questions[5], answers[5]);
    LocalesCollected(answers[5].values);
  }

  /** The two menus leave a language and a type they offer; `interactive` is kept. */
  lemma InterviewedMenus(f: FlagValues, answers: seq<FlagValue>)
    requires |answers| == |Questions|
    requires forall i :: 0 <= i < |answers| ==> Acceptable(Questions[i], answers[i])
    ensures var g := Assign(f, answers);
      && g.language.Some? && g.language.value in LanguageChoices
      && g.pluginType.Some? && g.pluginType.value in TypeChoices
      && g.interactive == f.interactive
  {
    AssignAt(f, answers, 6);
    assert Acceptable(Questions[6], answers[6]);
    AssignAt(f, answers, 7);
    assert Acceptable(Questions[7], answers[7]);
  }

  /** A finished interview leaves a valid name, a description and an author their patterns
      accept, the locales starting with `en_US`, and a language and a type from the menus;
      `interactive` is left as it was. */
  lemma Interviewed(f: FlagValues, answers: seq<FlagValue>)
    requires |answers| == |Questions|
    requires forall i :: 0 <= i < |answers| ==> Acceptable(Questions[i], answers[i])
    ensures var g := Assign(f, answers);
      && NameIsValid(g.name)
      && Matches(DescriptionPattern, g.description)
      && Matches(AuthorPattern, g.author)
      && g.locales.Some? && |g.locales.value| > 0 && g.locales.value[0] == "en_US" && IsSubsequence(g.locales.value, AllLocales)
      && g.language.Some? && g.language.value in LanguageChoices
      && g.pluginType.Some? && g.pluginType.value in TypeChoices
      && g.interactive == f.interactive
  {
    InterviewedName(f, answers);
    InterviewedTexts(f, answers);
    InterviewedLocales(f, answers);
    InterviewedMenus(f, answers);
  }

  /** A terminal whose user gives `replies` to the prompts in turn. */
  class Terminal {
    var replies: seq<Reply>

    constructor(replies: seq<Reply>)
      ensures this.replies == replies
    {
      this.replies := replies;
    }

    /** Shows the prompt for `q` and waits for its answer. */
    method Ask(q: Question) returns (a: Answer)
      modifies this
      ensures (a, replies) == Prompted(q, old(replies))
    {
      var outcome := Prompted(q, replies);
      a := outcome.0;
      replies := outcome.1;
    }
  }

  /** The flags object of `plugin init`, which `reconcileInteractiveFlag` and
      `runInteractiveMode` update field by field. */
  class CommandFlags {
    var interactive: bool
    var name: Option<string>
    var description: string
    var author: string
    var email: string
    var url: string
    var locales: Option<seq<string>>
    var language: Option<string>
    var pluginType: Option<string>

    constructor(values: FlagValues)
      ensures Values() == values
    {
      interactive := values.interactive;
      name := values.name;
      description := values.description;
      author := values.author;
      email := values.email;
      url := values.url;
      locales := values.locales;
      language := values.language;
      pluginType := values.pluginType;
    }

    function Values(): FlagValues
      reads this
    {
      FlagValues(interactive, name, description, author, email, url, locales, language, pluginType)
    }

    /** `reconcileInteractiveFlag`: a valid name switches interactive mode off; without
        interactive mode and without a valid name the command prints its hint and exits 0
        (`exits`). */
    method ReconcileInteractiveFlag() returns (exits: bool)
      modifies this
      ensures var m := Reconciled(old(interactive), NameIsValid(old(name)));
        interactive == m.interactive && exits == m.exits
      ensures Values() == old(Values()).(interactive := interactive)
    {
      if interactive && NameIsValid(name) {
        interactive := false;
      }
      exits := false;
      if !interactive && !NameIsValid(name) {
        exits := true;
      }
    }

    /** The assignment `flags.<field> = …` for the answer to question `q`. */
    method Store(q: Question, v: FlagValue)
      modifies this
      ensures Values() == SetField(old(Values()), q, v)
    {
      match q {
        case Name => name := Some(TextOf(v));
        case Description => description := TextOf(v);
        case Author => author := TextOf(v);
        case Email => email := TextOf(v);
        case Url => url := TextOf(v);
        case Locales => locales := Some(LocaleList(PicksOf(v)));
        case Language => language := Some(TextOf(v));
        case PluginType => pluginType := Some(TextOf(v));
      }
    }

    /** One line of the `try` block of `runInteractiveMode`: asks question `k` and assigns its
        answer. `got` are the answers assigned so far, from `start`, with replies `r0`. */
    method Collect(k: nat, terminal: Terminal, ghost start: FlagValues, ghost whole: Progress, ghost got: seq<FlagValue>)
      returns (stop: Option<Stop>, ghost now: seq<FlagValue>)
      requires k < |Questions| && |got| == k
      requires whole == Then(got, Interview(k, terminal.replies))
      requires Values() == Assign(start, got)
      modifies this, terminal
      ensures stop.None? ==>
        |now| == k + 1 && whole == Then(now, Interview(k + 1, terminal.replies)) && Values() == Assign(start, now)
      ensures stop.Some? ==>
        whole == Progress(got, stop, terminal.replies) && Values() == Assign(start, got)
    {
      ghost var before := terminal.replies;
      var a := terminal.Ask(Questions[k]);
      if a.Stopped? {
        Halt(whole, got, k, before);
        return Some(a.stop), got;
      }
      var v := a.value;
      stop := None;
      Store(Questions[k], v);
      now := got + [v];
      Advance(whole, got, k, before);
      AssignAppend(start, got, v);
    }

    /** `runInteractiveMode`: name, description, author, e-mail, URL, locales, language and
        type are asked and assigned in that order; a prompt that throws stops it there. */
    method RunInteractiveMode(terminal: Terminal) returns (stop: Option<Stop>)
      modifies this, terminal
      ensures var p := Interview(0, old(terminal.replies));
        stop == p.stop && terminal.replies == p.rest && Values() == Assign(old(Values()), p.answers)
    {
      ghost var start, whole := Values(), Interview(0, terminal.replies);
      ghost var got: seq<FlagValue> := [];
      assert [] + whole.answers == whole.answers;
      stop, got := Collect(0, terminal, start, whole, got);
      if stop.Some? { return; }
      stop, got := Collect(1, terminal, start, whole, got);
      if stop.Some? { return; }
      stop, got := Collect(2, terminal, start, whole, got);
      if stop.Some? { return; }
      stop, got := Collect(3, terminal, start, whole, got);
      if stop.Some? { return; }
      stop, got := Collect(4, terminal, start, whole, got);
      if stop.Some? { return; }
      stop, got := Collect(5, terminal, start, whole, got);
      if stop.Some? { return; }
      stop, got := Collect(6, terminal, start, whole, got);
      if stop.Some? { return; }
      stop, got := Collect(7, terminal, start, whole, got);
      if stop.Some? { return; }
      assert got + [] == got;
    }
  }

  /** The interactive flag after `reconcileInteractiveFlag`, and whether it exits. */
  datatype Reconciliation = Reconciliation(interactive: bool, exits: bool)

  /** `reconcileInteractiveFlag` on the flag and the validity of the name: interactive mode
      stays on exactly when it was on and the name is not valid, and the command exits
      exactly when it was off and the name is not valid. */
  function Reconciled(interactive: bool, nameValid: bool): (r: Reconciliation)
    ensures r.interactive <==> interactive && !nameValid
    ensures r.exits <==> !interactive && !nameValid
    ensures !r.interactive && !r.exits ==> nameValid
  {
    var on := if interactive && nameValid then false else interactive;
    Reconciliation(on, !on && !nameValid)
  }

  // ---------------------------------------------------------------------------
  // The command

  /** The hint printed when the command cannot run without prompts (colours left out). */
  const HelpText := "Without interactive mode, you should provide initial information manually.\nUse atomemo help plugin init to see all available options."
  /** The banner printed before the first prompt. */
  const GuideText := "Guiding you through creating a new plugin in interactive mode\nPlease follow the instructions below to complete the process:\n"
  /** The message of the failed `assert(flags.language, …)`. */
  const LanguageRequired := "flags.language should be valid here..."

  /** The state `run` reaches before it builds the generator: the flags, what was printed, how
      the command ended if it already did, and the replies left unread. */
  datatype Prep = Prep(flags: FlagValues, log: seq<string>, stop: Option<Outcome>, rest: seq<Reply>)

  /** `reconcileInteractiveFlag` followed, in interactive mode, by `runInteractiveMode`, from
      the parsed flags `f0` and a user who gives `replies`. */
  function Prepared(f0: FlagValues, replies: seq<Reply>): Prep {
    var m := Reconciled(f0.interactive, NameIsValid(f0.name));
    var f := f0.(interactive := m.interactive);
    if m.exits then Prep(f, [HelpText], Some(Exited(0, [HelpText])), replies)
    else if !m.interactive then Prep(f, [], None, replies)
    else
      var p := Interview(0, replies);
      var g := Assign(f, p.answers);
      match p.stop
      case None => Prep(g, [GuideText], None, p.rest)
      case Some(ExitPrompt) => Prep(g, [GuideText], Some(Exited(0, [GuideText])), p.rest)
      case Some(Rethrown(message)) => Prep(g, [GuideText], Some(Threw(message)), p.rest)
  }

  /** A valid `--name` skips every prompt, whatever `--interactive` says; without interactive
      mode and without a valid name the command prints its hint and exits 0, flags untouched. */
  lemma ValidNameSkipsPrompts(f0: FlagValues, replies: seq<Reply>)
    ensures NameIsValid(f0.name) ==> Prepared(f0, replies) == Prep(f0.(interactive := false), [], None, replies)
    ensures !f0.interactive && !NameIsValid(f0.name) ==>
      Prepared(f0, replies) == Prep(f0, [HelpText], Some(Exited(0, [HelpText])), replies)
  {
  }

  /** `assert(flags.name, …)` cannot fail: whenever `run` gets past the flags, the name is
      valid, either given so or collected by the name prompt. */
  lemma PreparedNameIsValid(f0: FlagValues, replies: seq<Reply>)
    ensures Prepared(f0, replies).stop.None? ==> NameIsValid(Prepared(f0, replies).flags.name)
  {
    var m := Reconciled(f0.interactive, NameIsValid(f0.name));
    if m.interactive {
      var p := Interview(0, replies);
      if p.stop.None? {
        InterviewedName(f0.(interactive := m.interactive), p.answers);
      }
    }
  }

  /** `assert(flags.language, …)` fails only without prompts and without `--language`: the
      interactive mode always collects a language from its menu. */
  lemma LanguageMissingOnlyWithoutPrompts(f0: FlagValues, replies: seq<Reply>)
    ensures var prep := Prepared(f0, replies);
      prep.stop.None? && !Truthy(prep.flags.language) ==>
        prep == Prep(f0.(interactive := false), [], None, replies) && !Truthy(f0.language)
  {
    var m := Reconciled(f0.interactive, NameIsValid(f0.name));
    if m.interactive {
      InterviewSetsLanguage(f0, replies);
    } else if !m.exits {
      assert f0.(interactive := m.interactive) == f0.(interactive := false);
    }
  }

  /** An interview that runs to its end leaves a language. */
  lemma InterviewSetsLanguage(f0: FlagValues, replies: seq<Reply>)
    requires Reconciled(f0.interactive, NameIsValid(f0.name)).interactive
    ensures Prepared(f0, replies).stop.None? ==> Truthy(Prepared(f0, replies).flags.language)
  {
    var f := f0.(interactive := true);
    var p := Interview(0, replies);
    if p.stop.None? {
      InterviewedMenus(f, p.answers);
      assert Prepared(f0, replies) == Prep(Assign(f, p.answers), [GuideText], None, p.rest);
    }
  }

  /** In interactive mode the banner is printed and the command stops exactly when the
      interview does: at the first reply that makes a prompt throw, with exit code 0 after the
      banner on `ExitPromptError` and by rethrowing the error's message otherwise; running out
      of replies closes the prompt as if cancelled. */
  lemma PromptErrorEndsRun(f0: FlagValues, replies: seq<Reply>)
    requires f0.interactive && !NameIsValid(f0.name)
    ensures var prep, p, j := Prepared(f0, replies), Interview(0, replies), FirstFailed(replies);
      && prep.log == [GuideText]
      && (prep.stop.None? <==> |p.answers| == |Questions|)
      && (prep.stop.Some? && j < |replies| ==>
            prep.rest == replies[j + 1..]
            && prep.stop == Some(if replies[j].errorName == "ExitPromptError" then Exited(0, [GuideText]) else Threw(replies[j].message)))
      && (prep.stop.Some? && j == |replies| ==> prep.rest == [] && prep.stop == Some(Exited(0, [GuideText])))
  {
    var m := Reconciled(f0.interactive, NameIsValid(f0.name));
    assert m.interactive && !m.exits;
    var p := Interview(0, replies);
    InterviewStopsAtFirstError(0, replies);
    var prep := Prepared(f0, replies);
    assert prep.log == [GuideText] && prep.rest == p.rest;
    assert prep.stop.None? <==> p.stop.None?;
    assert p.stop == Some(ExitPrompt) ==> prep.stop == Some(Exited(0, [GuideText]));
  }

  /** `new Date()`: the ISO timestamp and the local year. */
  datatype Clock = Clock(iso: string, year: nat)

  function OptionalText(v: Option<string>): Option<Generator.PropValue> {
    if v.Some? then Some(Generator.PString(v.value)) else None
  }

  function Put(props: map<string, Generator.PropValue>, key: string, v: Option<Generator.PropValue>): map<string, Generator.PropValue> {
    if v.Some? then props[key := v.value] else props
  }

  /** `{ ...flags, createdAt, date, year }`: the flags, the ISO timestamp, its first ten
      characters and the year. Nothing sets `permissions`. */
  function GenerationProps(f: FlagValues, clock: Clock): (props: map<string, Generator.PropValue>)
    ensures Generator.PermissionsKey !in props
  {
    var flags := map[
      "interactive" := Generator.PBool(f.interactive),
      "description" := Generator.PString(f.description),
      "author" := Generator.PString(f.author),
      "email" := Generator.PString(f.email),
      "url" := Generator.PString(f.url)];
    var flags := Put(flags, "name", OptionalText(f.name));
    var flags := Put(flags, "locales", if f.locales.Some? then Some(Generator.PList(f.locales.value)) else None);
    var flags := Put(flags, "language", OptionalText(f.language));
    var flags := Put(flags, "type", OptionalText(f.pluginType));
    var date := clock.iso[..if |clock.iso| < 10 then |clock.iso| else 10];
    flags["createdAt" := Generator.PString(clock.iso)]["date" := Generator.PString(date)]["year" := Generator.PString(Text.NatToString(clock.year))]
  }

  /** The props carry every flag: the texts always, and `name`, `locales`, `language` and `type`
      exactly when the flag is set. */
  lemma PropsCarryFlags(f: FlagValues, clock: Clock)
    ensures var props := GenerationProps(f, clock);
      && "interactive" in props && props["interactive"] == Generator.PBool(f.interactive)
      && "description" in props && props["description"] == Generator.PString(f.description)
      && "author" in props && props["author"] == Generator.PString(f.author)
      && "email" in props && props["email"] == Generator.PString(f.email)
      && "url" in props && props["url"] == Generator.PString(f.url)
      && (f.name.Some? ==> "name" in props && props["name"] == Generator.PString(f.name.value))
      && (f.name.None? ==> "name" !in props)
      && (f.locales.Some? ==> "locales" in props && props["locales"] == Generator.PList(f.locales.value))
      && (f.locales.None? ==> "locales" !in props)
      && (f.language.Some? ==> "language" in props && props["language"] == Generator.PString(f.language.value))
      && (f.language.None? ==> "language" !in props)
      && (f.pluginType.Some? ==> "type" in props && props["type"] == Generator.PString(f.pluginType.value))
      && (f.pluginType.None? ==> "type" !in props)
  {
  }

  /** The props carry the ISO timestamp as `createdAt`, its first ten characters as `date` and
      the year in decimal as `year`. */
  lemma PropsCarryClock(f: FlagValues, clock: Clock)
    ensures var props := GenerationProps(f, clock);
      && "createdAt" in props && props["createdAt"] == Generator.PString(clock.iso)
      && "date" in props && props["date"].PString? && Text.StartsWith(clock.iso, props["date"].s)
      && (|clock.iso| >= 10 ==> |props["date"].s| == 10)
      && "year" in props && props["year"] == Generator.PString(Text.NatToString(clock.year))
  {
  }

  /** The context `run` hands to `createPluginGenerator`: the props and `path.join(cwd, name)`. */
  function InitContext(f: FlagValues, clock: Clock, cwd: Generator.Path): Generator.Context {
    Generator.Context(GenerationProps(f, clock), cwd + [f.name.GetOr("")])
  }

  /** With the generator's constructor as written, every `plugin init` fails: its context never
      holds `permissions`, so the `reduce` in the constructor throws. */
  lemma InitReachesUndefinedReduce(f: FlagValues, clock: Clock, cwd: Generator.Path)
    ensures Generator.PermissionInput(InitContext(f, clock, cwd).props) == Err(Generator.UndefinedReduce)
  {
  }

  /** The generator `run` obtains from the prepared flags: the language assertion, then the
      dispatch on the language. */
  function Launched(f: FlagValues, clock: Clock, cwd: Generator.Path): (r: Result<Generator.PluginGenerator>)
    ensures !Truthy(f.language) ==> r == Err(LanguageRequired)
    ensures Truthy(f.language) && f.language.value != "typescript" ==> r == Err(Generator.NotImplemented(f.language.value))
    ensures r.Ok? ==>
      && f.language == Some("typescript")
      && r.value.Type() == "typescript"
      && r.value.context.target == cwd + [f.name.GetOr("")]
      && Generator.PermissionsKey in r.value.context.props
      && r.value.context.props[Generator.PermissionsKey] == Generator.PGroups([])
      && Generator.LanguageTemplates(r.value.context.props) == "typescript"
  {
    if !Truthy(f.language) then Err(LanguageRequired)
    else if f.language.value != "typescript" then Err(Generator.NotImplemented(f.language.value))
    else
      var context := InitContext(f, clock, cwd);
      Ok(Generator.TypeScriptPluginGenerator(
        Generator.Context(context.props[Generator.PermissionsKey := Generator.PGroups([])], context.target)))
  }

  /** `run()` of `plugin init` in directory `cwd` at time `clock`, with the template
      directories `templates`, writing into `fs`. */
  method Run(flags: CommandFlags, terminal: Terminal, cwd: Generator.Path, clock: Clock,
             templates: map<string, seq<Generator.Entry>>, fs: Generator.FileSystem)
    returns (outcome: Outcome)
    modifies flags, terminal, fs
    ensures var prep := Prepared(old(flags.Values()), old(terminal.replies));
      flags.Values() == prep.flags && terminal.replies == prep.rest
    ensures var prep := Prepared(old(flags.Values()), old(terminal.replies));
      prep.stop.Some? ==> outcome == prep.stop.value && fs.State() == old(fs.State())
    ensures var prep := Prepared(old(flags.Values()), old(terminal.replies));
      var launched := Launched(prep.flags, clock, cwd);
      prep.stop.None? && launched.Err? ==> outcome == Threw(launched.message) && fs.State() == old(fs.State())
    ensures var prep := Prepared(old(flags.Values()), old(terminal.replies));
      var launched := Launched(prep.flags, clock, cwd);
      prep.stop.None? && launched.Ok? ==>
        && fs.State() == Generator.Perform(old(fs.State()), Generator.GenerateWrites(launched.value, templates))
        && (outcome == Completed(prep.log) <==> Generator.CommonTemplates in templates && "typescript" in templates)
        && (outcome != Completed(prep.log) ==> outcome == Threw(Generator.NoSuchDirectory))
  {
    ghost var f0, r0 := flags.Values(), terminal.replies;
    var exits := flags.ReconcileInteractiveFlag();
    if exits {
      return Exited(0, [HelpText]);
    }
    var log: seq<string> := [];
    if flags.interactive {
      log := [GuideText];
      var stop := flags.RunInteractiveMode(terminal);
      if stop == Some(ExitPrompt) {
        return Exited(0, log);
      }
      if stop.Some? {
        return Threw(stop.value.message);
      }
    }
    assert flags.Values() == Prepared(f0, r0).flags;
    PreparedNameIsValid(f0, r0);
    NameShape(flags.name.value);
    assert Truthy(flags.name);
    if !Truthy(flags.language) {
      return Threw(LanguageRequired);
    }
    var context := Generator.Context(GenerationProps(flags.Values(), clock), cwd + [flags.name.value]);
    var created := Generator.CreatePluginGenerator(flags.language.value, context);
    if created.Err? {
      return Threw(created.message);
    }
    var result := Generator.Generate(created.value, templates, fs);
    if result.Err? {
      return Threw(result.message);
    }
    outcome := Completed(log);
  }
}
