/** The grammar of one reference.config line, the PCRE pattern
        ^\s*config\s+reference\s*:\s*([a-zA-Z][a-zA-Z0-9-_]*)\s+(.+)\s*$
    written as a hand-made recogniser (Parse) and proved against a
    declarative reading of the pattern (MatchesAt). */
module Grammar {
  import opened CType
  import opened Wrappers

  /** The character classes the pattern uses: `\s`, the system-name class
      `[a-zA-Z0-9-_]` (letters, digits, '-' and '_'), and `.`, which in PCRE's
      default mode is every byte except newline. */
  datatype CharClass = Space | SystemChar | AnyButNewline

  predicate In(c: char, cl: CharClass) {
    match cl
    case Space => IsSpace(c)
    case SystemChar => IsAlpha(c) || IsDigit(c) || c == '-' || c == '_'
    case AnyButNewline => c != '\n'
  }

  /** s[i..j] is made of characters of class cl. */
  predicate Run(s: string, i: int, j: int, cl: CharClass) {
    0 <= i <= j <= |s| && forall k :: i <= k < j ==> In(s[k], cl)
  }

  /** The literal lit occurs in s at position i. */
  predicate LiteralAt(s: string, i: int, lit: string) {
    0 <= i && i + |lit| <= |s| && forall k :: 0 <= k < |lit| ==> s[i + k] == lit[k]
  }

  /** Where `$` can match without the multiline option: at the end of the
      subject, or just before a newline that ends it. */
  predicate DollarAt(s: string, i: int) {
    i == |s| || (0 <= i == |s| - 1 && s[i] == '\n')
  }

  /** The positions at which one match of the pattern splits a line:
      `config` starts at config, `reference` at reference, `:` at colon,
      capture 1 is [sysStart, sysEnd), capture 2 is [urlStart, urlEnd), and
      `$` matches at dollar. */
  datatype Split = Split(config: nat, reference: nat, colon: nat,
                         sysStart: nat, sysEnd: nat,
                         urlStart: nat, urlEnd: nat, dollar: nat)

  /** The pattern matches line with the split w: each piece of the pattern
      in turn, as it is written. */
  ghost predicate MatchesAt(line: string, w: Split) {
    // ^\s*config
    Run(line, 0, w.config, Space) && LiteralAt(line, w.config, "config")
    // \s+reference
    && w.config + 6 < w.reference && Run(line, w.config + 6, w.reference, Space)
    && LiteralAt(line, w.reference, "reference")
    // \s*:
    && Run(line, w.reference + 9, w.colon, Space) && LiteralAt(line, w.colon, ":")
    // \s*([a-zA-Z][a-zA-Z0-9-_]*)
    && Run(line, w.colon + 1, w.sysStart, Space)
    && w.sysStart < w.sysEnd && Run(line, w.sysStart + 1, w.sysEnd, SystemChar)
    && IsAlpha(line[w.sysStart])
    // \s+(.+)
    && w.sysEnd < w.urlStart && Run(line, w.sysEnd, w.urlStart, Space)
    && w.urlStart < w.urlEnd && Run(line, w.urlStart, w.urlEnd, AnyButNewline)
    // \s*$
    && Run(line, w.urlEnd, w.dollar, Space) && DollarAt(line, w.dollar)
  }

  /** PCRE's backtracking order tries the greedy `\s+` longest first and then
      the greedy `(.+)` longest first, so of all splits with the same fixed
      prefix it reports the one whose second capture starts last and, among
      those, ends last. */
  predicate Prefers(w: Split, other: Split) {
    other.urlStart < w.urlStart
    || (other.urlStart == w.urlStart && other.urlEnd <= w.urlEnd)
  }

  /** The end of the longest run of class cl that starts at i. */
  function Span(s: string, i: nat, cl: CharClass): (j: nat)
    requires i <= |s|
    ensures Run(s, i, j, cl) && (j == |s| || !In(s[j], cl))
    decreases |s| - i
  {
    if i < |s| && In(s[i], cl) then Span(s, i + 1, cl) else i
  }

  /** The last position in [lo, hi) that does not hold a newline, if any. */
  function LastNonNewline(s: string, lo: nat, hi: nat): (r: Option<nat>)
    requires lo <= hi <= |s|
    ensures r.Some? ==> lo <= r.value < hi && s[r.value] != '\n'
                        && forall k :: r.value < k < hi ==> s[k] == '\n'
    ensures r.None? ==> forall k :: lo <= k < hi ==> s[k] == '\n'
    decreases hi - lo
  {
    if lo == hi then None
    else if s[hi - 1] != '\n' then Some(hi - 1)
    else LastNonNewline(s, lo, hi - 1)
  }

  /** `^\s*config\s+reference\s*:\s*` : the prefix before capture 1.
      Every quantifier in it is followed by a character it cannot match,
      so each takes its longest run. The result holds the positions of
      `config`, `reference`, `:` and the first character after the prefix. */
  function Head(line: string): (r: Option<(nat, nat, nat, nat)>)
    ensures r.Some? ==> r.value.3 <= |line|
  {
    var a := Span(line, 0, Space);
    if !LiteralAt(line, a, "config") then None
    else
      var b := Span(line, a + 6, Space);
      if b == a + 6 || !LiteralAt(line, b, "reference") then None
      else
        var c := Span(line, b + 9, Space);
        if !LiteralAt(line, c, ":") then None
        else Some((a, b, c, Span(line, c + 1, Space)))
  }

  /** `\s+(.+)\s*$` from position e on; the result is capture 2. The blank
      run after e ends at f:
      - if a non-blank follows, `(.+)` runs from f to the next newline and
        only blanks may remain;
      - if only blanks remain, `\s+` gives back characters until `(.+)` can
        start on one that is not a newline, and that one character is the
        capture. */
  function Tail(line: string, e: nat): (r: Option<(nat, nat)>)
    requires e <= |line|
    ensures r.Some? ==> e < r.value.0 < r.value.1 <= |line|
                        && Run(line, e, r.value.0, Space)
                        && Run(line, r.value.0, r.value.1, AnyButNewline)
                        && Run(line, r.value.1, |line|, Space)
  {
    var f := Span(line, e, Space);
    if f == e then None
    else if f < |line| then
      var g := Span(line, f, AnyButNewline);
      if Span(line, g, Space) == |line| then Some((f, g)) else None
    else
      match LastNonNewline(line, e + 1, f)
      case None => None
      case Some(j) => Some((j, Span(line, j, AnyButNewline)))
  }

  /** The recogniser: the prefix, capture 1 as the longest run of name
      characters after a letter, then the tail. */
  function Parse(line: string): (r: Option<Split>)
    ensures r.Some? ==> r.value.sysEnd < r.value.urlStart < r.value.urlEnd <= |line|
    ensures r.Some? ==> Run(line, r.value.sysEnd, r.value.urlStart, Space)
                        && Run(line, r.value.urlStart, r.value.urlEnd, AnyButNewline)
  {
    var h := Head(line);
    if h.None? then None
    else
      var d := h.value.3;
      if d == |line| || !IsAlpha(line[d]) then None
      else
        var e := Span(line, d + 1, SystemChar);
        var t := Tail(line, e);
        if t.None? then None
        else Some(Split(h.value.0, h.value.1, h.value.2, d, e, t.value.0, t.value.1, |line|))
  }

  /** The two captures of a line the pattern matches, or None. */
  function Match(line: string): (r: Option<(string, string)>)
    ensures r.Some? <==> Parse(line).Some?
    ensures r.Some? ==> IsSystemName(r.value.0) && r.value.1 != [] && '\n' !in r.value.1
  {
    match Parse(line)
    case None => None
    case Some(w) =>
      ParseSound(line);
      Some((line[w.sysStart..w.sysEnd], line[w.urlStart..w.urlEnd]))
  }

  /** `[a-zA-Z][a-zA-Z0-9-_]*` */
  predicate IsSystemName(s: string) {
    s != [] && IsAlpha(s[0]) && Run(s, 1, |s|, SystemChar)
  }

  lemma {:induction false} SpanIsLongest(s: string, i: nat, j: int, cl: CharClass)
    requires i <= |s| && Run(s, i, j, cl)
    ensures j <= Span(s, i, cl)
  {
  }

  lemma {:induction false} SpanUnique(s: string, i: nat, j: int, cl: CharClass)
    requires i <= |s| && Run(s, i, j, cl) && (j == |s| || !In(s[j], cl))
    ensures Span(s, i, cl) == j
  {
  }

  lemma {:induction false} LiteralHead(s: string, i: int, lit: string)
    requires LiteralAt(s, i, lit) && lit != []
    ensures s[i] == lit[0]
  {
  }

  /** Whatever follows the second capture of a match is blank up to the end. */
  lemma {:induction false} TailBlank(line: string, w: Split)
    requires MatchesAt(line, w)
    ensures Run(line, w.urlEnd, |line|, Space)
  {
  }

  /** Any split of a match has the prefix Head finds. */
  lemma {:induction false} HeadComplete(line: string, w: Split)
    requires MatchesAt(line, w)
    ensures Head(line) == Some((w.config, w.reference, w.colon, w.sysStart))
  {
    LiteralHead(line, w.config, "config");
    SpanUnique(line, 0, w.config, Space);
    LiteralHead(line, w.reference, "reference");
    SpanUnique(line, w.config + 6, w.reference, Space);
    LiteralHead(line, w.colon, ":");
    SpanUnique(line, w.reference + 9, w.colon, Space);
    SpanUnique(line, w.colon + 1, w.sysStart, Space);
  }

  /** Any split of a match is no better than Tail's, which always exists. */
  lemma {:induction false} TailComplete(line: string, w: Split)
    requires MatchesAt(line, w)
    ensures Tail(line, w.sysEnd).Some?
    ensures Prefers(Split(0, 0, 0, 0, 0, Tail(line, w.sysEnd).value.0, Tail(line, w.sysEnd).value.1, 0), w)
  {
    var e := w.sysEnd;
    var f := Span(line, e, Space);
    SpanIsLongest(line, e, w.urlStart, Space);
    TailBlank(line, w);
    if f < |line| {
      assert w.urlStart <= f < w.urlEnd;
      var g := Span(line, f, AnyButNewline);
      SpanIsLongest(line, f, w.urlEnd, AnyButNewline);
      SpanUnique(line, g, |line|, Space);
    } else {
      assert line[w.urlStart] != '\n';
      var j := LastNonNewline(line, e + 1, f);
      assert j.Some?;
      if w.urlStart == j.value {
        SpanIsLongest(line, j.value, w.urlEnd, AnyButNewline);
      }
    }
  }

  /** Whatever Parse returns is a way the pattern matches the line. */
  lemma {:induction false} ParseSound(line: string)
    ensures Parse(line).Some? ==> MatchesAt(line, Parse(line).value)
  {
  }

  lemma {:induction false} ParseFromParts(line: string, h: (nat, nat, nat, nat), e: nat, t: (nat, nat))
    requires Head(line) == Some(h) && h.3 < |line| && IsAlpha(line[h.3])
    requires Span(line, h.3 + 1, SystemChar) == e && Tail(line, e) == Some(t)
    ensures Parse(line).Some? && Parse(line).value.sysStart == h.3 && Parse(line).value.sysEnd == e
    ensures Parse(line).value.urlStart == t.0 && Parse(line).value.urlEnd == t.1
  {
  }

  /** Every way the pattern can match line is found by Parse: the fixed
      prefix and capture 1 are the same, and Parse's capture 2 is the one
      PCRE's backtracking order reaches first. */
  lemma {:induction false} ParseComplete(line: string, w: Split)
    requires MatchesAt(line, w)
    ensures Parse(line).Some?
    ensures Parse(line).value.sysStart == w.sysStart && Parse(line).value.sysEnd == w.sysEnd
    ensures Prefers(Parse(line).value, w)
  {
    HeadComplete(line, w);
    assert !In(line[w.sysEnd], SystemChar);
    SpanUnique(line, w.sysStart + 1, w.sysEnd, SystemChar);
    TailComplete(line, w);
    var t := Tail(line, w.sysEnd).value;
    ParseFromParts(line, (w.config, w.reference, w.colon, w.sysStart), w.sysEnd, t);
  }

  /** The recogniser accepts exactly the lines the pattern matches. */
  lemma {:induction false} MatchAcceptsExactly(line: string)
    ensures Match(line).Some? <==> exists w :: MatchesAt(line, w)
  {
    ParseSound(line);
    if w :| MatchesAt(line, w) {
      ParseComplete(line, w);
    }
  }

  /** In every way the pattern matches a line, capture 1 is the system name
      Match returns. */
  lemma {:induction false} MatchSystemIsCapture(line: string, w: Split)
    requires MatchesAt(line, w)
    ensures Match(line).Some? && Match(line).value.0 == line[w.sysStart..w.sysEnd]
  {
    ParseComplete(line, w);
  }

  /** The canonical directive: one blank on each side, a url that starts
      with a non-blank, and the newline fgets keeps. Blanks inside or at the
      end of the url stay in the capture. */
  lemma {:induction false} MatchesDirective(sys: string, url: string)
    requires IsSystemName(sys) && url != [] && !IsSpace(url[0]) && '\n' !in url
    ensures Match("config reference: " + sys + " " + url + "\n") == Some((sys, url))
  {
    var line := "config reference: " + sys + " " + url + "\n";
    var n := 18 + |sys|;
    DirectiveParse(sys, url);
    assert line[18..n] == sys;
    assert line[n + 1..n + 1 + |url|] == url;
  }

  lemma {:induction false} DirectiveParse(sys: string, url: string)
    requires IsSystemName(sys) && url != [] && !IsSpace(url[0]) && '\n' !in url
    ensures var p := Parse("config reference: " + sys + " " + url + "\n");
      p.Some? && p.value.sysStart == 18 && p.value.sysEnd == 18 + |sys|
      && p.value.urlStart == 19 + |sys| && p.value.urlEnd == 19 + |sys| + |url|
  {
    var line := "config reference: " + sys + " " + url + "\n";
    var n := 18 + |sys|;
    assert line == "config reference: " + sys + (" " + url + "\n");
    NameAfterHead(line, sys, " " + url + "\n");
    DirectiveTail(line, n, url);
    ParseFromParts(line, (0, 7, 16, 18), n, (n + 1, n + 1 + |url|));
  }

  /** ` url\n` from n on: capture 2 is the url. */
  lemma {:induction false} DirectiveTail(line: string, n: nat, url: string)
    requires url != [] && !IsSpace(url[0]) && '\n' !in url
    requires |line| == n + 2 + |url| && line[n] == ' ' && line[|line| - 1] == '\n'
    requires forall k :: 0 <= k < |url| ==> line[n + 1 + k] == url[k]
    ensures Tail(line, n) == Some((n + 1, n + 1 + |url|))
  {
    assert line[n + 1 + 0] == url[0];
    SpanUnique(line, n, n + 1, Space);
    assert forall k :: n + 1 <= k < n + 1 + |url| ==> line[k] == url[k - n - 1];
    SpanUnique(line, n + 1, n + 1 + |url|, AnyButNewline);
    SpanUnique(line, n + 1 + |url|, |line|, Space);
  }

  lemma {:induction false} DirectiveHead(line: string, tail: string)
    requires line == "config reference: " + tail
    ensures LiteralAt(line, 0, "config") && LiteralAt(line, 7, "reference") && LiteralAt(line, 16, ":")
    ensures line[6] == ' ' && line[17] == ' ' && |line| == 18 + |tail|
  {
    assert line == "config" + " " + "reference" + ":" + " " + tail;
  }

  /** `config` not followed by a blank. */
  lemma {:induction false} RejectsGluedConfig(x: char, rest: string)
    requires !IsSpace(x)
    ensures Match("config" + [x] + rest) == None
  {
    var line := "config" + [x] + rest;
    SpanUnique(line, 0, 0, Space);
    SpanUnique(line, 6, 6, Space);
  }

  /** `config reference`, optional blanks, then neither `:` nor a blank. */
  lemma {:induction false} RejectsMissingColon(blanks: string, x: char, rest: string)
    requires Run(blanks, 0, |blanks|, Space) && x != ':' && !IsSpace(x)
    ensures Match("config reference" + blanks + [x] + rest) == None
  {
    var line := "config reference" + blanks + [x] + rest;
    BlanksBeforeColon(line, blanks, x, rest);
    assert line[16 + |blanks| + 0] == x != ":"[0];
  }

  lemma {:induction false} BlanksBeforeColon(line: string, blanks: string, x: char, rest: string)
    requires Run(blanks, 0, |blanks|, Space) && !IsSpace(x)
    requires line == "config reference" + blanks + [x] + rest
    ensures Span(line, 0, Space) == 0 && LiteralAt(line, 0, "config")
    ensures Span(line, 6, Space) == 7 && LiteralAt(line, 7, "reference")
    ensures Span(line, 16, Space) == 16 + |blanks| && line[16 + |blanks|] == x
  {
    assert line == "config" + " " + "reference" + blanks + [x] + rest;
    SpanUnique(line, 0, 0, Space);
    SpanUnique(line, 6, 7, Space);
    assert forall k :: 0 <= k < |blanks| ==> line[16 + k] == blanks[k];
    SpanUnique(line, 16, 16 + |blanks|, Space);
  }

  /** A system name and nothing after it but the newline. */
  lemma {:induction false} RejectsMissingUrl(sys: string)
    requires IsSystemName(sys)
    ensures Match("config reference: " + sys + "\n") == None
  {
    var line := "config reference: " + sys + "\n";
    var n := 18 + |sys|;
    NameAfterHead(line, sys, "\n");
    SpanUnique(line, n, n + 1, Space);
  }

  /** The prefix of a directive line, and capture 1 running to the end of
      the system name. */
  lemma {:induction false} NameAfterHead(line: string, sys: string, rest: string)
    requires IsSystemName(sys) && rest != [] && IsSpace(rest[0])
    requires line == "config reference: " + sys + rest
    ensures Head(line) == Some((0, 7, 16, 18)) && |line| == 18 + |sys| + |rest|
    ensures Span(line, 19, SystemChar) == 18 + |sys|
    ensures forall k :: 0 <= k < |rest| ==> line[18 + |sys| + k] == rest[k]
  {
    var n := 18 + |sys|;
    assert forall k :: 0 <= k < |sys| ==> line[18 + k] == sys[k];
    assert forall k :: 0 <= k < |rest| ==> line[n + k] == rest[k];
    HeadOfDirective(line, sys + rest);
    assert line[n] == rest[0];
    SpanUnique(line, 19, n, SystemChar);
  }

  lemma {:induction false} HeadOfDirective(line: string, tail: string)
    requires line == "config reference: " + tail && tail != [] && !IsSpace(tail[0])
    ensures Head(line) == Some((0, 7, 16, 18))
  {
    DirectiveHead(line, tail);
    assert line[18] == tail[0];
    SpanUnique(line, 0, 0, Space);
    SpanUnique(line, 6, 7, Space);
    SpanUnique(line, 16, 16, Space);
    SpanUnique(line, 17, 18, Space);
  }

  /** A system name followed by two blanks and the newline still matches:
      `\s+` gives back the second blank, which becomes the url. */
  lemma {:induction false} AcceptsBlankUrl(sys: string)
    requires IsSystemName(sys)
    ensures Match("config reference: " + sys + "  \n") == Some((sys, " "))
  {
    var line := "config reference: " + sys + "  \n";
    var n := 18 + |sys|;
    BlankUrlParse(sys);
    assert forall k :: 0 <= k < |sys| ==> line[18 + k] == sys[k];
    assert line[18..n] == sys;
    assert line[n + 1..n + 2] == " ";
  }

  lemma {:induction false} BlankUrlParse(sys: string)
    requires IsSystemName(sys)
    ensures var p := Parse("config reference: " + sys + "  \n");
      p.Some? && p.value.sysStart == 18 && p.value.sysEnd == 18 + |sys|
      && p.value.urlStart == 19 + |sys| && p.value.urlEnd == 20 + |sys|
  {
    var line := "config reference: " + sys + "  \n";
    var n := 18 + |sys|;
    NameAfterHead(line, sys, "  \n");
    assert line[n] == ' ' && line[n + 1] == ' ' && line[n + 2] == '\n';
    BlankUrlTail(line, n);
  }

  lemma {:induction false} BlankUrlTail(line: string, n: nat)
    requires n + 3 == |line| && line[n] == ' ' && line[n + 1] == ' ' && line[n + 2] == '\n'
    ensures Tail(line, n) == Some((n + 1, n + 2))
  {
    SpanUnique(line, n, n + 3, Space);
    assert LastNonNewline(line, n + 1, n + 2) == Some(n + 1);
    SpanUnique(line, n + 1, n + 2, AnyButNewline);
  }
}
