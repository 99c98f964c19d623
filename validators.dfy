/** The hand-checked formats of `utils/validators.js`: the e-mail pattern
    `^\w+([.-]?\w+)*@\w+([.-]?\w+)*(\.\w{2,3})+$` (also the `match` of the
    User schema), the phone pattern
    `^[+]?[(]?[0-9]{3}[)]?[-\s.]?[0-9]{3}[-\s.]?[0-9]{4,6}$`, and the invoice
    and transaction numbers built from the clock and `Math.random()`.

    Each pattern is modelled twice: as the regular expression's parse trees
    (a tree per way the pattern can match, and the text it spells), and as a
    recogniser that reads the text once. The lemmas prove that the recogniser
    accepts exactly the texts some tree spells. */
module Validators {
  import opened Wrappers
  import opened Js

  // ---------------------------------------------------------------------------
  // Character classes

  /** `\w`: ASCII letters, digits and the underscore. */
  predicate IsWordChar(c: char) {
    'a' <= c <= 'z' || 'A' <= c <= 'Z' || '0' <= c <= '9' || c == '_'
  }

  /** `[.-]`. */
  predicate IsSep(c: char) {
    c == '.' || c == '-'
  }

  predicate IsWord(w: string) {
    |w| >= 1 && forall i :: 0 <= i < |w| ==> IsWordChar(w[i])
  }

  // ---------------------------------------------------------------------------
  // The e-mail pattern as parse trees

  /** One repetition of `([.-]?\w+)`. */
  datatype Segment = Segment(sep: Option<char>, word: string)

  /** A match of the e-mail pattern: `\w+` `([.-]?\w+)*` `@` `\w+` `([.-]?\w+)*` `(\.\w{2,3})+`. */
  datatype EmailTree = EmailTree(user: string, userRest: seq<Segment>, host: string, hostRest: seq<Segment>, suffixes: seq<string>)

  predicate SegmentOk(g: Segment) {
    (g.sep.None? || IsSep(g.sep.value)) && IsWord(g.word)
  }

  predicate SuffixOk(w: string) {
    IsWord(w) && 2 <= |w| <= 3
  }

  predicate EmailTreeOk(t: EmailTree) {
    && IsWord(t.user) && (forall k :: 0 <= k < |t.userRest| ==> SegmentOk(t.userRest[k]))
    && IsWord(t.host) && (forall k :: 0 <= k < |t.hostRest| ==> SegmentOk(t.hostRest[k]))
    && |t.suffixes| >= 1 && (forall k :: 0 <= k < |t.suffixes| ==> SuffixOk(t.suffixes[k]))
  }

  function SepText(sep: Option<char>): string {
    match sep
    case None => ""
    case Some(c) => [c]
  }

  function SegmentsText(gs: seq<Segment>): string {
    if gs == [] then "" else SepText(gs[0].sep) + gs[0].word + SegmentsText(gs[1..])
  }

  function SuffixesText(ws: seq<string>): string {
    if ws == [] then "" else SuffixesText(ws[..|ws| - 1]) + "." + ws[|ws| - 1]
  }

  function LocalText(t: EmailTree): string {
    t.user + SegmentsText(t.userRest)
  }

  function DomainText(t: EmailTree): string {
    t.host + SegmentsText(t.hostRest) + SuffixesText(t.suffixes)
  }

  /** The text a parse tree spells. */
  function EmailText(t: EmailTree): string {
    LocalText(t) + "@" + DomainText(t)
  }

  /** What `emailRegex.test(s)` means: some parse tree spells `s`. */
  ghost predicate MatchesEmailPattern(s: string) {
    exists t :: EmailTreeOk(t) && EmailText(t) == s
  }

  // ---------------------------------------------------------------------------
  // The e-mail recogniser

  /** What may follow a word character in `\w+([.-]?\w+)*`: word characters,
      and separators each followed by a word character. */
  predicate RunsTail(r: string) {
    if r == [] then true
    else if IsWordChar(r[0]) then RunsTail(r[1..])
    else IsSep(r[0]) && |r| >= 2 && IsWordChar(r[1]) && RunsTail(r[2..])
  }

  /** `\w+([.-]?\w+)*`: word runs joined by single separators. */
  predicate IsRuns(r: string) {
    |r| >= 1 && IsWordChar(r[0]) && RunsTail(r[1..])
  }

  /** The same set of texts, described without recursion. */
  predicate RunsShape(r: string) {
    && |r| >= 1 && IsWordChar(r[0]) && IsWordChar(r[|r| - 1])
    && (forall k :: 0 <= k < |r| ==> IsWordChar(r[k]) || IsSep(r[k]))
    && (forall k :: 0 <= k < |r| - 1 ==> !(IsSep(r[k]) && IsSep(r[k + 1])))
  }

  /** The position of the last separator in `s`. */
  function LastSep(s: string): (r: Option<nat>)
    ensures r.Some? ==> r.value < |s| && IsSep(s[r.value]) && forall k :: r.value < k < |s| ==> !IsSep(s[k])
    ensures r.None? ==> forall k :: 0 <= k < |s| ==> !IsSep(s[k])
  {
    if s == [] then None
    else if IsSep(s[|s| - 1]) then Some(|s| - 1)
    else LastSep(s[..|s| - 1])
  }

  /** `\w+([.-]?\w+)*(\.\w{2,3})+`: runs whose last separator is '.', followed by 2 or 3 word characters. */
  predicate IsDomain(d: string) {
    IsRuns(d) && match LastSep(d)
      case None => false
      case Some(j) => d[j] == '.' && 2 <= |d| - 1 - j <= 3
  }

  /** `isValidEmail(email)`. */
  predicate IsValidEmail(s: string)
    ensures IsValidEmail(s) ==> 6 <= |s|
    ensures IsValidEmail(s) ==> exists i :: 0 < i < |s| - 1 && s[i] == '@'
  {
    match IndexOf(s, '@')
    case None => false
    case Some(i) => IsRuns(s[..i]) && IsDomain(s[i + 1..])
  }

  // ---------------------------------------------------------------------------
  // Recogniser and shape

  lemma {:induction false} RunsTailShape(r: string)
    requires RunsTail(r)
    ensures forall k :: 0 <= k < |r| ==> IsWordChar(r[k]) || IsSep(r[k])
    ensures r != [] ==> IsWordChar(r[|r| - 1])
    ensures forall k :: 0 <= k < |r| - 1 ==> !(IsSep(r[k]) && IsSep(r[k + 1]))
    decreases |r|
  {
    if r != [] {
      var n := if IsWordChar(r[0]) then 1 else 2;
      RunsTailShape(r[n..]);
      assert forall k :: n <= k < |r| ==> r[k] == r[n..][k - n];
    }
  }

  lemma {:induction false} ShapeRunsTail(r: string)
    requires forall k :: 0 <= k < |r| ==> IsWordChar(r[k]) || IsSep(r[k])
    requires r != [] ==> IsWordChar(r[|r| - 1])
    requires forall k :: 0 <= k < |r| - 1 ==> !(IsSep(r[k]) && IsSep(r[k + 1]))
    ensures RunsTail(r)
    decreases |r|
  {
    if r != [] {
      var n := if IsWordChar(r[0]) then 1 else 2;
      if n == 2 {
        assert IsWordChar(r[|r| - 1]);
        assert !IsSep(r[1]);
      }
      var t := r[n..];
      assert forall k :: 0 <= k < |t| ==> t[k] == r[k + n];
      ShapeRunsTail(t);
    }
  }

  /** The recursive recogniser of word runs accepts exactly the texts that
      start and end with a word character, hold nothing but word characters
      and separators, and never hold two separators in a row. */
  lemma RunsIffShape(r: string)
    ensures IsRuns(r) <==> RunsShape(r)
  {
    if IsRuns(r) {
      RunsTailShape(r[1..]);
      assert forall k :: 1 <= k < |r| ==> r[k] == r[1..][k - 1];
    }
    if RunsShape(r) {
      var t := r[1..];
      assert forall k :: 0 <= k < |t| ==> t[k] == r[k + 1];
      if |r| > 1 { assert !IsSep(r[1]) || !IsSep(r[0]); }
      ShapeRunsTail(t);
    }
  }

  // ---------------------------------------------------------------------------
  // Soundness: every parse tree spells a text the recogniser accepts

  lemma {:induction false} WordThenTail(w: string, rest: string)
    requires forall i :: 0 <= i < |w| ==> IsWordChar(w[i])
    requires RunsTail(rest)
    ensures RunsTail(w + rest)
    decreases |w|
  {
    if w == [] {
      assert w + rest == rest;
    } else {
      var s := w + rest;
      assert s[0] == w[0] && IsWordChar(w[0]);
      assert s[1..] == w[1..] + rest;
      WordThenTail(w[1..], rest);
    }
  }

  lemma WordTailChars(w: string)
    requires IsWord(w)
    ensures forall i :: 0 <= i < |w[1..]| ==> IsWordChar(w[1..][i])
  {
    forall i | 0 <= i < |w[1..]| ensures IsWordChar(w[1..][i]) { assert w[1..][i] == w[i + 1]; }
  }

  /** A separator and a word in front of a runs tail make a runs tail. */
  lemma SepWordThenTail(c: char, word: string, rest: string)
    requires IsSep(c) && IsWord(word) && RunsTail(rest)
    ensures RunsTail([c] + word + rest)
  {
    WordThenRunsTail(word, rest);
    var u := word + rest;
    var s := [c] + u;
    assert s[2..] == u[1..];
    assert !IsWordChar(s[0]) && IsSep(s[0]) && IsWordChar(s[1]) && RunsTail(s[2..]);
    assert [c] + word + rest == s;
  }

  /** One `[.-]?\w+` in front of a runs tail is a runs tail. */
  lemma SegmentThenTail(sep: Option<char>, word: string, rest: string)
    requires SegmentOk(Segment(sep, word)) && RunsTail(rest)
    ensures RunsTail(SepText(sep) + word + rest)
  {
    match sep
    case None =>
      WordThenTail(word, rest);
      assert SepText(sep) + word + rest == word + rest;
    case Some(c) =>
      SepWordThenTail(c, word, rest);
  }

  lemma {:induction false} SegmentsTail(gs: seq<Segment>)
    requires forall k :: 0 <= k < |gs| ==> SegmentOk(gs[k])
    ensures RunsTail(SegmentsText(gs))
  {
    if gs != [] {
      SegmentsTail(gs[1..]);
      SegmentThenTail(gs[0].sep, gs[0].word, SegmentsText(gs[1..]));
    }
  }

  lemma {:induction false} WordThenRunsTail(w: string, t: string)
    requires IsWord(w) && RunsTail(t)
    ensures IsRuns(w + t)
  {
    var s := w + t;
    var tail := w[1..];
    WordTailChars(w);
    WordThenTail(tail, t);
    assert s[0] == w[0] && IsWordChar(s[0]);
    assert s[1..] == tail + t;
  }

  lemma WordRuns(w: string, gs: seq<Segment>)
    requires IsWord(w) && forall k :: 0 <= k < |gs| ==> SegmentOk(gs[k])
    ensures IsRuns(w + SegmentsText(gs))
  {
    SegmentsTail(gs);
    WordThenRunsTail(w, SegmentsText(gs));
  }

  /** Appending a separator and a word keeps word runs. */
  lemma {:induction false} RunsExtend(p: string, c: char, w: string)
    requires IsRuns(p) && IsSep(c) && IsWord(w)
    ensures IsRuns(p + [c] + w)
  {
    RunsIffShape(p);
    var s := p + [c] + w;
    assert s[0] == p[0] && s[|s| - 1] == w[|w| - 1];
    forall k | 0 <= k < |s| ensures IsWordChar(s[k]) || IsSep(s[k]) {
      if k < |p| { assert s[k] == p[k]; } else if k > |p| { assert s[k] == w[k - |p| - 1]; }
    }
    forall k | 0 <= k < |s| - 1 ensures !(IsSep(s[k]) && IsSep(s[k + 1])) {
      if k + 1 < |p| {
        assert s[k] == p[k] && s[k + 1] == p[k + 1];
      } else if k + 1 == |p| {
        assert s[k] == p[|p| - 1] && IsWordChar(p[|p| - 1]);
      } else {
        assert s[k + 1] == w[k - |p|] && IsWordChar(w[k - |p|]);
      }
    }
    assert RunsShape(s);
    RunsIffShape(s);
  }

  lemma SuffixesTextSnoc(ws: seq<string>)
    requires ws != []
    ensures SuffixesText(ws) == SuffixesText(ws[..|ws| - 1]) + "." + ws[|ws| - 1]
  {
  }

  lemma {:induction false} SuffixesRuns(p: string, ws: seq<string>)
    requires IsRuns(p) && forall k :: 0 <= k < |ws| ==> SuffixOk(ws[k])
    ensures IsRuns(p + SuffixesText(ws))
  {
    if ws == [] {
      assert p + SuffixesText(ws) == p;
    } else {
      var init := ws[..|ws| - 1];
      var last := ws[|ws| - 1];
      assert forall k :: 0 <= k < |init| ==> init[k] == ws[k];
      SuffixesRuns(p, init);
      RunsExtend(p + SuffixesText(init), '.', last);
      SuffixesTextSnoc(ws);
      AppendAssoc(p, SuffixesText(init), last);
    }
  }

  lemma AppendAssoc(p: string, q: string, w: string)
    ensures p + (q + "." + w) == p + q + ['.'] + w
  {
  }

  lemma {:induction false} LastSepAfter(p: string, c: char, w: string)
    requires IsSep(c) && IsWord(w)
    ensures LastSep(p + [c] + w) == Some(|p|)
    decreases |w|
  {
    var s := p + [c] + w;
    assert s[|s| - 1] == w[|w| - 1] && IsWordChar(w[|w| - 1]);
    assert LastSep(s) == LastSep(s[..|s| - 1]);
    if |w| > 1 {
      var init := w[..|w| - 1];
      assert IsWord(init) by {
        forall i | 0 <= i < |init| ensures IsWordChar(init[i]) { assert init[i] == w[i]; }
      }
      assert s[..|s| - 1] == p + [c] + init;
      LastSepAfter(p, c, init);
    } else {
      assert s[..|s| - 1] == p + [c];
      assert LastSep(p + [c]) == Some(|p|);
    }
  }

  /** Word runs, a '.', and two or three word characters make a domain. */
  lemma DomainOfRuns(q: string, last: string)
    requires IsRuns(q) && SuffixOk(last)
    ensures IsDomain(q + ['.'] + last)
  {
    RunsExtend(q, '.', last);
    LastSepAfter(q, '.', last);
  }

  lemma DomainOfTree(host: string, gs: seq<Segment>, ws: seq<string>)
    requires IsWord(host) && forall k :: 0 <= k < |gs| ==> SegmentOk(gs[k])
    requires |ws| >= 1 && forall k :: 0 <= k < |ws| ==> SuffixOk(ws[k])
    ensures IsDomain(host + SegmentsText(gs) + SuffixesText(ws))
  {
    var p := host + SegmentsText(gs);
    WordRuns(host, gs);
    var init := ws[..|ws| - 1];
    assert forall k :: 0 <= k < |init| ==> init[k] == ws[k];
    SuffixesRuns(p, init);
    DomainOfRuns(p + SuffixesText(init), ws[|ws| - 1]);
    SuffixesTextSnoc(ws);
    AppendAssoc(p, SuffixesText(init), ws[|ws| - 1]);
  }

  lemma NoAtInRuns(r: string)
    requires IsRuns(r)
    ensures '@' !in r
  {
    RunsIffShape(r);
  }

  lemma EmailOfParts(local: string, domain: string)
    requires IsRuns(local) && IsDomain(domain)
    ensures IsValidEmail(local + "@" + domain)
  {
    NoAtInRuns(local);
    var s := local + ['@'] + domain;
    IndexOfAfter(local, '@', domain);
    assert s[..|local|] == local;
    assert s[|local| + 1..] == domain;
  }

  /** Every text the pattern's parse trees spell is accepted by the recogniser. */
  lemma EmailSound(t: EmailTree)
    requires EmailTreeOk(t)
    ensures IsValidEmail(EmailText(t))
  {
    WordRuns(t.user, t.userRest);
    DomainOfTree(t.host, t.hostRest, t.suffixes);
    EmailOfParts(LocalText(t), DomainText(t));
  }

  // ---------------------------------------------------------------------------
  // Completeness: every accepted text is spelt by a parse tree

  /** Reads a runs tail as one-character segments. */
  function ParseTail(r: string): (gs: seq<Segment>)
    requires RunsTail(r)
    ensures forall k :: 0 <= k < |gs| ==> SegmentOk(gs[k])
    ensures SegmentsText(gs) == r
    decreases |r|
  {
    if r == [] then []
    else if IsWordChar(r[0]) then
      var rest := ParseTail(r[1..]);
      var g := Segment(None, [r[0]]);
      assert SegmentsText([g] + rest) == SepText(g.sep) + g.word + SegmentsText(rest);
      assert r == SepText(g.sep) + g.word + r[1..];
      [g] + rest
    else
      var rest := ParseTail(r[2..]);
      var g := Segment(Some(r[0]), [r[1]]);
      assert SegmentsText([g] + rest) == SepText(g.sep) + g.word + SegmentsText(rest);
      assert r == SepText(g.sep) + g.word + r[2..];
      [g] + rest
  }

  lemma DropOfTake(r: string, n: nat, j: nat)
    requires n <= j <= |r|
    ensures r[..j][n..] == r[n..][..j - n]
  {
  }

  lemma {:induction false} RunsTailPrefix(r: string, j: nat)
    requires RunsTail(r) && j < |r| && IsSep(r[j])
    ensures RunsTail(r[..j])
    decreases |r|
  {
    if j == 0 {
      assert r[..j] == [];
    } else if IsWordChar(r[0]) {
      var p := r[..j];
      RunsTailPrefix(r[1..], j - 1);
      DropOfTake(r, 1, j);
      assert p[0] == r[0];
    } else if j == 1 {
      assert false;
    } else {
      var p := r[..j];
      RunsTailPrefix(r[2..], j - 2);
      DropOfTake(r, 2, j);
      assert p[0] == r[0] && p[1] == r[1] && |p| >= 2;
    }
  }

  /** Word runs read back as a first word and one-character segments. */
  lemma RunsTree(r: string) returns (w: string, gs: seq<Segment>)
    requires IsRuns(r)
    ensures IsWord(w) && (forall k :: 0 <= k < |gs| ==> SegmentOk(gs[k]))
    ensures w + SegmentsText(gs) == r
  {
    w := r[..1];
    gs := ParseTail(r[1..]);
    assert r == r[..1] + r[1..];
  }

  /** A domain splits at its last separator into word runs and a final run of two or three characters. */
  lemma DomainParts(d: string) returns (p: string, w: string)
    requires IsDomain(d)
    ensures IsRuns(p) && SuffixOk(w) && d == p + "." + w
  {
    var j := LastSep(d).value;
    p := d[..j];
    w := d[j + 1..];
    RunsIffShape(d);
    assert IsWord(w) by {
      assert forall k :: 0 <= k < |w| ==> w[k] == d[j + 1 + k];
    }
    assert IsWordChar(d[0]);
    RunsTailPrefix(d[1..], j - 1);
    assert d[1..][..j - 1] == p[1..];
    assert d == p + "." + w;
  }

  lemma SplitAround(s: string, i: nat)
    requires i < |s| && s[i] == '@'
    ensures s == s[..i] + "@" + s[i + 1..]
  {
  }

  lemma EmptyThen(p: string, x: string, w: string)
    ensures p + ("" + x + w) == p + x + w
  {
  }

  /** Every text the recogniser accepts is the text of some parse tree. */
  lemma EmailComplete(s: string) returns (t: EmailTree)
    requires IsValidEmail(s)
    ensures EmailTreeOk(t) && EmailText(t) == s
  {
    var i := IndexOf(s, '@').value;
    var local := s[..i];
    var domain := s[i + 1..];
    var user, userRest := RunsTree(local);
    var p, w := DomainParts(domain);
    var host, hostRest := RunsTree(p);
    t := EmailTree(user, userRest, host, hostRest, [w]);
    assert SuffixesText([w]) == "" + "." + w by {
      assert [w][..0] == [];
    }
    EmptyThen(p, ".", w);
    SplitAround(s, i);
  }

  /** The recogniser accepts exactly the texts the e-mail pattern matches. */
  lemma EmailIffPattern(s: string)
    ensures IsValidEmail(s) <==> MatchesEmailPattern(s)
  {
    if IsValidEmail(s) {
      var t := EmailComplete(s);
    }
    if MatchesEmailPattern(s) {
      var t :| EmailTreeOk(t) && EmailText(t) == s;
      EmailSound(t);
    }
  }

  /** An accepted address holds exactly one '@', with word runs on both sides;
      after the '@' the last separator is '.' and the final run has 2 or 3 characters. */
  lemma EmailShape(s: string)
    requires IsValidEmail(s)
    ensures exists i :: 0 <= i < |s| && s[i] == '@' && RunsShape(s[..i]) && RunsShape(s[i + 1..])
    ensures forall i, j :: 0 <= i < |s| && 0 <= j < |s| && s[i] == '@' && s[j] == '@' ==> i == j
  {
    var i := IndexOf(s, '@').value;
    RunsIffShape(s[..i]);
    RunsIffShape(s[i + 1..]);
    forall a, b | 0 <= a < |s| && 0 <= b < |s| && s[a] == '@' && s[b] == '@' ensures a == b {
      AtOnlyAt(s, i, a);
      AtOnlyAt(s, i, b);
    }
  }

  lemma AtOnlyAt(s: string, i: nat, a: nat)
    requires IndexOf(s, '@') == Some(i) && IsDomain(s[i + 1..])
    requires a < |s| && s[a] == '@'
    ensures a == i
  {
    if a > i {
      assert s[i + 1..][a - i - 1] == s[a];
      NoAtInRuns(s[i + 1..]);
    }
  }

  // ---------------------------------------------------------------------------
  // The phone pattern

  /** `\s` of JavaScript regular expressions. */
  predicate IsJsSpace(c: char) {
    || c == '\t' || c == '\n' || c == '\U{B}' || c == '\U{C}' || c == '\r' || c == ' '
    || c == '\U{A0}' || c == '\U{1680}' || ('\U{2000}' <= c <= '\U{200A}')
    || c == '\U{2028}' || c == '\U{2029}' || c == '\U{202F}' || c == '\U{205F}'
    || c == '\U{3000}' || c == '\U{FEFF}'
  }

  /** `[-\s.]`. */
  predicate IsPhoneSep(c: char) {
    c == '-' || IsJsSpace(c) || c == '.'
  }

  predicate AllDigits(s: string) {
    forall i :: 0 <= i < |s| ==> IsDigit(s[i])
  }

  /** A match of the phone pattern: optional '+', optional '(', three digits,
      optional ')', optional separator, three digits, optional separator, and
      four to six digits. */
  datatype PhoneTree = PhoneTree(plus: bool, open: bool, area: string, close: bool,
                                 sep1: Option<char>, exchange: string, sep2: Option<char>, line: string)

  predicate SepOk(sep: Option<char>) {
    sep.None? || IsPhoneSep(sep.value)
  }

  predicate PhoneTreeOk(t: PhoneTree) {
    && |t.area| == 3 && AllDigits(t.area)
    && SepOk(t.sep1)
    && |t.exchange| == 3 && AllDigits(t.exchange)
    && SepOk(t.sep2)
    && 4 <= |t.line| <= 6 && AllDigits(t.line)
  }

  function Flag(present: bool, c: char): string {
    if present then [c] else ""
  }

  /** `[-\s.]?[0-9]{4,6}`. */
  function LineText(sep: Option<char>, line: string): string {
    SepText(sep) + line
  }

  /** `[-\s.]?[0-9]{3}[-\s.]?[0-9]{4,6}`. */
  function ExchangeText(t: PhoneTree): string {
    SepText(t.sep1) + (t.exchange + LineText(t.sep2, t.line))
  }

  /** `[0-9]{3}[)]?` and what follows. */
  function AreaText(t: PhoneTree): string {
    t.area + (Flag(t.close, ')') + ExchangeText(t))
  }

  function PhoneText(t: PhoneTree): string {
    Flag(t.plus, '+') + (Flag(t.open, '(') + AreaText(t))
  }

  /** What `phoneRegex.test(s)` means. */
  ghost predicate MatchesPhonePattern(s: string) {
    exists t :: PhoneTreeOk(t) && PhoneText(t) == s
  }

  /** Takes `c` off the front of `s` if it is there. */
  function Optional(s: string, c: char): (bool, string) {
    if |s| > 0 && s[0] == c then (true, s[1..]) else (false, s)
  }

  function OptionalSep(s: string): (Option<char>, string) {
    if |s| > 0 && IsPhoneSep(s[0]) then (Some(s[0]), s[1..]) else (None, s)
  }

  function ReadLine(s: string): Option<(Option<char>, string)> {
    var (sep, rest) := OptionalSep(s);
    if 4 <= |rest| <= 6 && AllDigits(rest) then Some((sep, rest)) else None
  }

  function ReadExchange(s: string): Option<(Option<char>, string, Option<char>, string)> {
    var (sep, rest) := OptionalSep(s);
    if |rest| < 3 || !AllDigits(rest[..3]) then None
    else match ReadLine(rest[3..])
      case None => None
      case Some((sep2, line)) => Some((sep, rest[..3], sep2, line))
  }

  /** `[0-9]{3}[)]?` and the rest of the number, once the optional '+' and '(' are read. */
  function ReadArea(plus: bool, open: bool, s: string): Option<PhoneTree> {
    if |s| < 3 || !AllDigits(s[..3]) then None
    else
      var (close, s3) := Optional(s[3..], ')');
      match ReadExchange(s3)
      case None => None
      case Some((sep1, exchange, sep2, line)) =>
        Some(PhoneTree(plus, open, s[..3], close, sep1, exchange, sep2, line))
  }

  /** The phone recogniser: the pattern read left to right. Each optional piece
      is a character the next piece cannot start with, so one pass decides. */
  function ParsePhone(s: string): Option<PhoneTree> {
    var (plus, s1) := Optional(s, '+');
    var (open, s2) := Optional(s1, '(');
    ReadArea(plus, open, s2)
  }

  lemma ReadLineLength(s: string)
    ensures ReadLine(s).Some? ==> 4 <= |s| <= 7 && IsDigit(s[|s| - 1])
  {
  }

  lemma ReadExchangeLength(s: string)
    ensures ReadExchange(s).Some? ==> 7 <= |s| <= 11 && IsDigit(s[|s| - 1])
  {
    var (sep, rest) := OptionalSep(s);
    if |rest| >= 3 {
      ReadLineLength(rest[3..]);
    }
  }

  lemma ReadAreaLength(plus: bool, open: bool, s: string)
    ensures ReadArea(plus, open, s).Some? ==> 10 <= |s| <= 15 && IsDigit(s[|s| - 1])
  {
    if |s| >= 3 {
      var (close, s3) := Optional(s[3..], ')');
      ReadExchangeLength(s3);
    }
  }

  /** An accepted phone number has between 10 and 17 characters and ends in a digit. */
  lemma ParsePhoneLength(s: string)
    ensures ParsePhone(s).Some? ==> 10 <= |s| <= 17 && IsDigit(s[|s| - 1])
  {
    var (plus, s1) := Optional(s, '+');
    var (open, s2) := Optional(s1, '(');
    ReadAreaLength(plus, open, s2);
  }

  /** `isValidPhone(phone)`. */
  predicate IsValidPhone(s: string)
    ensures IsValidPhone(s) ==> 10 <= |s| <= 17 && IsDigit(s[|s| - 1])
  {
    ParsePhoneLength(s);
    ParsePhone(s).Some?
  }

  // ---------------------------------------------------------------------------
  // Reading a tree's text gives the tree back

  lemma OptionalFlag(c: char, present: bool, rest: string)
    requires rest != [] ==> rest[0] != c
    ensures Optional(Flag(present, c) + rest, c) == (present, rest)
  {
    if present {
      assert (Flag(present, c) + rest)[1..] == rest;
    } else {
      assert Flag(present, c) + rest == rest;
    }
  }

  lemma OptionalSepText(sep: Option<char>, rest: string)
    requires SepOk(sep) && rest != [] && IsDigit(rest[0])
    ensures OptionalSep(SepText(sep) + rest) == (sep, rest)
  {
    if sep.Some? {
      assert (SepText(sep) + rest)[1..] == rest;
    } else {
      assert !IsPhoneSep(rest[0]);
      assert SepText(sep) + rest == rest;
    }
  }

  lemma ReadLineText(sep: Option<char>, line: string)
    requires SepOk(sep) && 4 <= |line| <= 6 && AllDigits(line)
    ensures ReadLine(LineText(sep, line)) == Some((sep, line))
  {
    OptionalSepText(sep, line);
  }

  lemma ReadExchangeText(t: PhoneTree)
    requires PhoneTreeOk(t)
    ensures ReadExchange(ExchangeText(t)) == Some((t.sep1, t.exchange, t.sep2, t.line))
  {
    var rest := t.exchange + LineText(t.sep2, t.line);
    OptionalSepText(t.sep1, rest);
    assert rest[..3] == t.exchange && rest[3..] == LineText(t.sep2, t.line);
    ReadLineText(t.sep2, t.line);
  }

  lemma ExchangeStart(t: PhoneTree)
    requires PhoneTreeOk(t)
    ensures ExchangeText(t) != [] && (IsPhoneSep(ExchangeText(t)[0]) || IsDigit(ExchangeText(t)[0]))
  {
    if t.sep1.None? {
      assert ExchangeText(t)[0] == t.exchange[0];
    }
  }

  lemma ReadAreaText(t: PhoneTree)
    requires PhoneTreeOk(t)
    ensures ReadArea(t.plus, t.open, AreaText(t)) == Some(t)
  {
    var area := AreaText(t);
    assert area[..3] == t.area && area[3..] == Flag(t.close, ')') + ExchangeText(t);
    ExchangeStart(t);
    OptionalFlag(')', t.close, ExchangeText(t));
    ReadExchangeText(t);
  }

  /** Reading the text of a parse tree gives the tree back. */
  lemma PhoneParseText(t: PhoneTree)
    requires PhoneTreeOk(t)
    ensures ParsePhone(PhoneText(t)) == Some(t)
  {
    var area := AreaText(t);
    var afterPlus := Flag(t.open, '(') + area;
    assert area[0] == t.area[0] && IsDigit(area[0]);
    assert afterPlus[0] == if t.open then '(' else t.area[0];
    OptionalFlag('+', t.plus, afterPlus);
    OptionalFlag('(', t.open, area);
    assert ParsePhone(PhoneText(t)) == ReadArea(t.plus, t.open, area);
    ReadAreaText(t);
  }

  // ---------------------------------------------------------------------------
  // A tree read off a text spells that text

  lemma OptionalRestores(s: string, c: char)
    ensures Flag(Optional(s, c).0, c) + Optional(s, c).1 == s
  {
    if |s| > 0 && s[0] == c {
      assert s == [c] + s[1..];
    } else {
      assert "" + s == s;
    }
  }

  lemma OptionalSepRestores(s: string)
    ensures SepOk(OptionalSep(s).0)
    ensures SepText(OptionalSep(s).0) + OptionalSep(s).1 == s
  {
    if |s| > 0 && IsPhoneSep(s[0]) {
      assert s == [s[0]] + s[1..];
    } else {
      assert "" + s == s;
    }
  }

  lemma ReadExchangeRestores(s: string)
    requires ReadExchange(s).Some?
    ensures var (sep1, ex, sep2, line) := ReadExchange(s).value;
      && SepOk(sep1) && |ex| == 3 && AllDigits(ex) && SepOk(sep2) && 4 <= |line| <= 6 && AllDigits(line)
      && SepText(sep1) + (ex + LineText(sep2, line)) == s
  {
    var (sep, rest) := OptionalSep(s);
    OptionalSepRestores(s);
    OptionalSepRestores(rest[3..]);
    assert rest == rest[..3] + rest[3..];
  }

  lemma ReadAreaRestores(plus: bool, open: bool, s: string)
    requires ReadArea(plus, open, s).Some?
    ensures var t := ReadArea(plus, open, s).value;
      PhoneTreeOk(t) && t.plus == plus && t.open == open && AreaText(t) == s
  {
    var (close, s3) := Optional(s[3..], ')');
    OptionalRestores(s[3..], ')');
    ReadExchangeRestores(s3);
    var t := ReadArea(plus, open, s).value;
    assert ExchangeText(t) == s3;
    assert s == s[..3] + s[3..];
  }

  /** A tree the recogniser reads off a text is well formed and spells that text. */
  lemma PhoneTextParse(s: string)
    requires IsValidPhone(s)
    ensures PhoneTreeOk(ParsePhone(s).value) && PhoneText(ParsePhone(s).value) == s
  {
    var (plus, s1) := Optional(s, '+');
    var (open, s2) := Optional(s1, '(');
    OptionalRestores(s, '+');
    OptionalRestores(s1, '(');
    ReadAreaRestores(plus, open, s2);
  }

  /** The recogniser accepts exactly the texts the phone pattern matches. */
  lemma PhoneIffPattern(s: string)
    ensures IsValidPhone(s) <==> MatchesPhonePattern(s)
  {
    if IsValidPhone(s) {
      PhoneTextParse(s);
    }
    if MatchesPhonePattern(s) {
      var t :| PhoneTreeOk(t) && PhoneText(t) == s;
      PhoneParseText(t);
    }
  }

  function DigitCount(s: string): nat {
    if s == [] then 0 else (if IsDigit(s[0]) then 1 else 0) + DigitCount(s[1..])
  }

  lemma {:induction false} DigitCountAppend(a: string, b: string)
    ensures DigitCount(a + b) == DigitCount(a) + DigitCount(b)
  {
    if a != [] {
      assert (a + b)[1..] == a[1..] + b;
      DigitCountAppend(a[1..], b);
    } else {
      assert a + b == b;
    }
  }

  lemma {:induction false} DigitCountAll(s: string)
    requires AllDigits(s)
    ensures DigitCount(s) == |s|
  {
    if s != [] { DigitCountAll(s[1..]); }
  }

  lemma DigitCountMarks(sep: Option<char>, present: bool, c: char)
    requires SepOk(sep) && !IsDigit(c)
    ensures DigitCount(SepText(sep)) == 0 && DigitCount(Flag(present, c)) == 0
  {
  }

  /** Every accepted phone number has between 10 and 12 digits. */
  lemma PhoneDigits(s: string)
    requires IsValidPhone(s)
    ensures 10 <= DigitCount(s) <= 12
  {
    PhoneTextParse(s);
    var t := ParsePhone(s).value;
    DigitCountMarks(t.sep1, t.plus, '+');
    DigitCountMarks(t.sep2, t.open, '(');
    DigitCountMarks(t.sep2, t.close, ')');
    DigitCountAll(t.area);
    DigitCountAll(t.exchange);
    DigitCountAll(t.line);
    DigitCountAppend(SepText(t.sep2), t.line);
    DigitCountAppend(t.exchange, LineText(t.sep2, t.line));
    DigitCountAppend(SepText(t.sep1), t.exchange + LineText(t.sep2, t.line));
    DigitCountAppend(Flag(t.close, ')'), ExchangeText(t));
    DigitCountAppend(t.area, Flag(t.close, ')') + ExchangeText(t));
    DigitCountAppend(Flag(t.open, '('), AreaText(t));
    DigitCountAppend(Flag(t.plus, '+'), Flag(t.open, '(') + AreaText(t));
  }

  /** The parentheses need not balance: an opening one alone is accepted. */
  lemma UnbalancedParenthesis()
    ensures IsValidPhone("(123456-7890")
  {
    var t := OpenOnlyTree();
    PhoneParseText(t);
  }

  /** The parse tree of "(123456-7890": an opening parenthesis, no closing one. */
  lemma OpenOnlyTree() returns (t: PhoneTree)
    ensures PhoneTreeOk(t) && t.open && !t.close && PhoneText(t) == "(123456-7890"
  {
    t := PhoneTree(false, true, "123", false, None, "456", Some('-'), "7890");
    assert AllDigits(t.area) && AllDigits(t.exchange) && AllDigits(t.line);
    assert ExchangeText(t) == "456-7890";
    assert AreaText(t) == "123456-7890";
  }

  // ---------------------------------------------------------------------------
  // Invoice and transaction numbers

  /** `s.substr(start, length)` for a non-negative start and length. */
  function Substr(s: string, start: nat, length: nat): (r: string)
    ensures |r| <= length
    ensures forall i :: 0 <= i < |r| ==> start + i < |s| && r[i] == s[start + i]
    ensures start + length <= |s| ==> |r| == length
  {
    if start >= |s| then ""
    else if start + length <= |s| then s[start..start + length]
    else s[start..]
  }

  /** `toUpperCase` on one character, for the ASCII letters. */
  function UpperChar(c: char): char {
    if 'a' <= c <= 'z' then (c as int - 32) as char else c
  }

  function Upper(s: string): (r: string)
    ensures |r| == |s|
    ensures forall i :: 0 <= i < |s| ==> r[i] == UpperChar(s[i])
  {
    if s == [] then [] else [UpperChar(s[0])] + Upper(s[1..])
  }

  predicate IsBase36Lower(c: char) {
    '0' <= c <= '9' || 'a' <= c <= 'z'
  }

  predicate IsBase36Upper(c: char) {
    '0' <= c <= '9' || 'A' <= c <= 'Z'
  }

  /** The text of `Math.random().toString(36)`: "0", or "0." and base-36 digits. */
  predicate IsRandomText(r: string) {
    r == "0" || (|r| >= 2 && r[..2] == "0." && forall i :: 2 <= i < |r| ==> IsBase36Lower(r[i]))
  }

  /** `Math.random().toString(36).substr(2, 9).toUpperCase()`. */
  function RandomSuffix(random: string): (r: string)
    ensures |r| <= 9
    ensures IsRandomText(random) ==> forall i :: 0 <= i < |r| ==> IsBase36Upper(r[i])
  {
    var part := Substr(random, 2, 9);
    assert IsRandomText(random) ==> forall i :: 0 <= i < |part| ==> IsBase36Lower(part[i]);
    Upper(part)
  }

  /** `generateInvoiceNumber()`, with `Date.now()` and the text of `Math.random()` as inputs. */
  function InvoiceNumber(now: nat, random: string): (r: string)
    ensures |r| >= 5 && r[..4] == "INV-" && IsDigit(r[4])
  {
    "INV-" + Decimal(now) + RandomSuffix(random)
  }

  /** `generateTransactionId()`. */
  function TransactionId(now: nat, random: string): (r: string)
    ensures |r| >= 5 && r[..4] == "TXN-" && IsDigit(r[4])
  {
    "TXN-" + Decimal(now) + RandomSuffix(random)
  }

  /** The shape of a generated number: its prefix, then the clock's digits,
      then at most nine upper-case base-36 characters. */
  ghost predicate GeneratedShape(s: string, prefix: string, now: nat) {
    exists tail :: s == prefix + Decimal(now) + tail && |tail| <= 9
      && forall i :: 0 <= i < |tail| ==> IsBase36Upper(tail[i])
  }

  lemma GeneratedNumbers(now: nat, random: string)
    requires IsRandomText(random)
    ensures GeneratedShape(InvoiceNumber(now, random), "INV-", now)
    ensures GeneratedShape(TransactionId(now, random), "TXN-", now)
    ensures InvoiceNumber(now, random) != TransactionId(now, random)
  {
    var tail := RandomSuffix(random);
    assert InvoiceNumber(now, random) == "INV-" + Decimal(now) + tail;
    assert TransactionId(now, random) == "TXN-" + Decimal(now) + tail;
    assert InvoiceNumber(now, random)[0] != TransactionId(now, random)[0];
  }
}
