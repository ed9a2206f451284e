/** Loading reference.config into the table, and looking names up in it. */
module ReferenceConfig {
  import opened CType
  import opened Wrappers
  import opened LineClassifier
  import opened Grammar
  import opened Canon
  import opened RefStore

  /** The key and url a directive line defines: the lowered system name and
      the url exactly as captured. */
  function Candidate(line: string): Option<(string, string)> {
    match Match(line)
    case None => None
    case Some((system, url)) => Some((Lower(system), url))
  }

  /** A line defines an entry exactly when the pattern matches it; whatever
      match is taken, the key is its capture 1 lowered; the key is a
      lower-case system name and the url a non-empty piece of one line. */
  lemma {:induction false} CandidateMeaning(line: string)
    ensures Candidate(line).Some? <==> exists w :: MatchesAt(line, w)
    ensures forall w :: MatchesAt(line, w) ==>
              Candidate(line).Some? && Candidate(line).value.0 == Lower(line[w.sysStart..w.sysEnd])
    ensures Candidate(line).Some? ==>
              var (key, url) := Candidate(line).value;
              IsLowerCase(key) && IsSystemName(key) && url != [] && '\n' !in url
  {
    MatchAcceptsExactly(line);
    CaptureIsKey(line);
    if Match(line).Some? {
      LowerProperties(Match(line).value.0);
      LowerKeepsSystemName(Match(line).value.0);
    }
  }

  /** Every match of the pattern captures the system name that Match returns. */
  lemma {:induction false} CaptureIsKey(line: string)
    ensures forall w :: MatchesAt(line, w) ==> Match(line).Some? && Match(line).value.0 == line[w.sysStart..w.sysEnd]
  {
    forall w | MatchesAt(line, w)
      ensures Match(line).Some? && Match(line).value.0 == line[w.sysStart..w.sysEnd]
    {
      MatchSystemIsCapture(line, w);
    }
  }

  /** Lowering a system name gives a system name: letters stay letters, and
      digits, '-' and '_' are left alone. */
  lemma {:induction false} LowerKeepsSystemName(s: string)
    requires IsSystemName(s)
    ensures IsSystemName(Lower(s))
  {
    var t := Lower(s);
    forall k | 1 <= k < |t|
      ensures In(t[k], SystemChar)
    {
      assert In(s[k], SystemChar);
    }
  }

  /** Entering a definition into a table: a new key is added with its url,
      a key already present keeps its entry, so the first definition of a
      name wins. */
  function Insert(t: map<string, Ref>, d: Option<(string, string)>): map<string, Ref> {
    match d
    case None => t
    case Some((key, url)) => if key in t then t else t[key := Ref(key, Some(url))]
  }

  /** The effect of SCRConfAddReference on the table's contents: a line that
      does not match changes nothing, a matching line enters its candidate. */
  function AddLine(t: map<string, Ref>, line: string): map<string, Ref> {
    Insert(t, Candidate(line))
  }

  /** The effect of one line read by the load loop. */
  ghost function Step(t: map<string, Ref>, line: string): map<string, Ref> {
    Insert(t, Definition(line))
  }

  /** The contents after the load loop has read lines, in order, into t. */
  ghost function LoadOnto(t: map<string, Ref>, lines: seq<string>): map<string, Ref>
    decreases |lines|
  {
    if lines == [] then t
    else Step(LoadOnto(t, lines[..|lines| - 1]), lines[|lines| - 1])
  }

  /** The contents of a freshly loaded table. */
  ghost function Load(lines: seq<string>): map<string, Ref> {
    LoadOnto(map[], lines)
  }

  /** What a line defines as far as the loader is concerned: nothing for a
      skipped line, otherwise its candidate entry. */
  ghost function Definition(line: string): Option<(string, string)> {
    if BlankOrComment(line) then None else Candidate(line)
  }

  /** The keys the lines define. */
  ghost function Keys(lines: seq<string>): set<string> {
    set j | 0 <= j < |lines| && Definition(lines[j]).Some? :: Definition(lines[j]).value.0
  }

  /** Line j defines a key that no earlier line defines. */
  ghost predicate FirstDefinition(lines: seq<string>, j: int) {
    0 <= j < |lines| && Definition(lines[j]).Some?
    && forall i :: 0 <= i < j && Definition(lines[i]).Some? ==>
         Definition(lines[i]).value.0 != Definition(lines[j]).value.0
  }

  /** One definition: if its key is new, the count grows by exactly one and
      the key maps to the definition's url; otherwise nothing changes. */
  lemma {:induction false} InsertEffect(t: map<string, Ref>, d: Option<(string, string)>)
    ensures d.None? ==> Insert(t, d) == t
    ensures d.Some? && d.value.0 in t ==> Insert(t, d) == t
    ensures d.Some? && d.value.0 !in t ==>
              var (key, url) := d.value;
              |Insert(t, d)| == |t| + 1 && Insert(t, d)[key] == Ref(key, Some(url))
              && Insert(t, d).Keys == t.Keys + {key}
  {
  }

  lemma {:induction false} LoadOntoSnoc(t: map<string, Ref>, lines: seq<string>, line: string)
    ensures LoadOnto(t, lines + [line]) == Step(LoadOnto(t, lines), line)
  {
    assert (lines + [line])[..|lines|] == lines;
  }

  lemma {:induction false} LoadOntoPrefix(t: map<string, Ref>, lines: seq<string>, i: nat)
    requires i < |lines|
    ensures LoadOnto(t, lines[..i + 1]) == Step(LoadOnto(t, lines[..i]), lines[i])
  {
    assert lines[..i + 1][..i] == lines[..i];
  }

  lemma {:induction false} KeysSnoc(lines: seq<string>, line: string)
    ensures Keys(lines + [line]) == Keys(lines) + (if Definition(line).Some? then {Definition(line).value.0} else {})
  {
    var all := lines + [line];
    forall k | k in Keys(all) ensures k in Keys(lines) || (Definition(line).Some? && k == Definition(line).value.0) {
      var j :| 0 <= j < |all| && Definition(all[j]).Some? && Definition(all[j]).value.0 == k;
      if j < |lines| {
        assert all[j] == lines[j];
      }
    }
    forall k | k in Keys(lines) ensures k in Keys(all) {
      var j :| 0 <= j < |lines| && Definition(lines[j]).Some? && Definition(lines[j]).value.0 == k;
      assert all[j] == lines[j];
    }
    if Definition(line).Some? {
      assert all[|lines|] == line;
    }
  }

  /** The loaded table holds exactly the keys the lines define, so its count
      is the number of distinct lowered system names among the matching,
      non-skipped lines. */
  lemma {:induction false} LoadKeys(lines: seq<string>)
    ensures Load(lines).Keys == Keys(lines)
    ensures |Load(lines)| == |Keys(lines)|
    decreases |lines|
  {
    if lines != [] {
      var prev := lines[..|lines| - 1];
      var last := lines[|lines| - 1];
      assert lines == prev + [last];
      LoadKeys(prev);
      LoadOntoSnoc(map[], prev, last);
      KeysSnoc(prev, last);
      InsertEffect(Load(prev), Definition(last));
    }
    assert |Load(lines)| == |Load(lines).Keys|;
  }

  /** Each key holds the url of the first line that defines it. */
  lemma {:induction false} LoadFirstWins(lines: seq<string>, j: int)
    requires FirstDefinition(lines, j)
    ensures var (key, url) := Definition(lines[j]).value;
            key in Load(lines) && Load(lines)[key] == Ref(key, Some(url))
    decreases |lines|
  {
    var prev := lines[..|lines| - 1];
    var last := lines[|lines| - 1];
    assert lines == prev + [last];
    LoadOntoSnoc(map[], prev, last);
    if j < |prev| {
      FirstDefinitionOfPrefix(lines, j);
      LoadFirstWins(prev, j);
      InsertEffect(Load(prev), Definition(last));
    } else {
      FirstDefinitionIsNew(lines);
      InsertEffect(Load(prev), Definition(last));
    }
  }

  lemma {:induction false} FirstDefinitionOfPrefix(lines: seq<string>, j: int)
    requires FirstDefinition(lines, j) && j < |lines| - 1
    ensures FirstDefinition(lines[..|lines| - 1], j) && lines[..|lines| - 1][j] == lines[j]
  {
    var prev := lines[..|lines| - 1];
    assert forall i :: 0 <= i <= j ==> prev[i] == lines[i];
  }

  /** A last line that is a first definition brings a key the earlier lines
      have not loaded. */
  lemma {:induction false} FirstDefinitionIsNew(lines: seq<string>)
    requires FirstDefinition(lines, |lines| - 1)
    ensures Definition(lines[|lines| - 1]).value.0 !in Load(lines[..|lines| - 1])
  {
    var prev := lines[..|lines| - 1];
    var key := Definition(lines[|lines| - 1]).value.0;
    LoadKeys(prev);
    assert forall i :: 0 <= i < |prev| ==> prev[i] == lines[i];
    assert key !in Keys(prev);
  }

  /** Every stored key is a lowered system name and is the entry's own name. */
  lemma {:induction false} LoadKeysAreCanonical(lines: seq<string>, key: string)
    requires key in Load(lines)
    ensures Load(lines)[key].system == key && IsLowerCase(key)
    decreases |lines|
  {
    var prev := lines[..|lines| - 1];
    var last := lines[|lines| - 1];
    assert lines == prev + [last];
    LoadOntoSnoc(map[], prev, last);
    if key in Load(prev) {
      LoadKeysAreCanonical(prev, key);
    }
    if !BlankOrComment(last) && Candidate(last).Some? {
      LowerProperties(Match(last).value.0);
    }
  }

  /** SCRConfAddReference: match the line, build the candidate entry, and add
      it unless the table already holds its name. 0 for a matching line,
      -1 for one that does not match. */
  method AddReference(table: ReferenceTable, rawstr: string) returns (rc: int)
    requires table.Valid()
    modifies table, table.buckets
    ensures table.Valid() && table.buckets == old(table.buckets)
    ensures rc == if Match(rawstr).Some? then 0 else -1
    ensures table.Contents == AddLine(old(table.Contents), rawstr)
    ensures Match(rawstr).None? ==> table.Contents == old(table.Contents) && table.count == old(table.count)
    ensures Match(rawstr).Some? ==>
              var (key, url) := Candidate(rawstr).value;
              if key in old(table.Contents) then table.Contents == old(table.Contents) && table.count == old(table.count)
              else table.count == old(table.count) + 1 && table.Contents[key] == Ref(key, Some(url))
  {
    var m := Match(rawstr);
    if m.None? {
      return -1;
    }
    var (system, url) := m.value;
    var refNew := AllocReference(Some(system), Some(url));
    var refLookup := table.Lookup(refNew.value);
    if refLookup.None? {
      table.Add(refNew.value);
    }
    return 0;
  }

  /** SCRConfParseFile: every line that is not blank or a comment is handed
      to AddReference; a line that does not match is dropped and the loop
      goes on. */
  method ParseFile(table: ReferenceTable, lines: seq<string>)
    requires table.Valid()
    modifies table, table.buckets
    ensures table.Valid() && table.buckets == old(table.buckets)
    ensures table.Contents == LoadOnto(old(table.Contents), lines)
  {
    var i := 0;
    while i < |lines|
      invariant 0 <= i <= |lines|
      invariant table.Valid() && table.buckets == old(table.buckets)
      invariant table.Contents == LoadOnto(old(table.Contents), lines[..i])
    {
      LoadOntoPrefix(old(table.Contents), lines, i);
      var skip := IsLineBlankOrComment(lines[i]);
      if !skip {
        var _ := AddReference(table, lines[i]);
        assert Definition(lines[i]) == Candidate(lines[i]);
      }
      i := i + 1;
    }
    assert lines[..i] == lines;
  }

  /** Why a load cannot start: the reference.config stream could not be
      opened. */
  datatype LoadError = CannotOpen

  /** SCRConfLoadReferenceConfigFile: a fresh table filled from the stream's
      lines. stream is None when the file could not be opened, which the
      original reports by ending the process. */
  method LoadReferenceConfigFile(stream: Option<seq<string>>) returns (r: Result<ReferenceTable, LoadError>)
    ensures stream.None? ==> r == Failure(CannotOpen)
    ensures stream.Some? ==> r.Success? && fresh(r.value) && fresh(r.value.buckets)
                             && r.value.Valid() && r.value.Contents == Load(stream.value)
                             && r.value.count == |Keys(stream.value)|
  {
    if stream.None? {
      return Failure(CannotOpen);
    }
    var table := new ReferenceTable();
    ParseFile(table, stream.value);
    LoadKeys(stream.value);
    return Success(table);
  }

  /** SCRConfGetReference: looks the lowered name up; changes nothing. */
  method GetReference(table: ReferenceTable, name: string) returns (found: Option<Ref>)
    requires table.Valid()
    ensures found.Some? <==> Lower(name) in table.Contents
    ensures found.Some? ==> found.value == table.Contents[Lower(name)]
  {
    var probe := AllocReference(Some(name), None);
    found := table.Lookup(probe.value);
  }

  /** Lookup ignores case: two names that differ only in the case of their
      letters find the same entry, or both find none. */
  method LookupIgnoresCase(table: ReferenceTable, x: string, y: string) returns (fx: Option<Ref>, fy: Option<Ref>)
    requires table.Valid() && SameUpToCase(x, y)
    ensures fx == fy
    ensures fx.Some? <==> Lower(x) in table.Contents
  {
    SameUpToCaseIsSameKey(x, y);
    fx := GetReference(table, x);
    fy := GetReference(table, y);
  }
}
