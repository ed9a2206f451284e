/** The three test buffers of the original unit tests, and what loading
    them gives. */
module ReferenceConfigTests {
  import opened CType
  import opened Wrappers
  import opened LineClassifier
  import opened Grammar
  import opened Canon
  import opened RefStore
  import opened ReferenceConfig

  /** Every reference valid, "one" and "three" defined twice. */
  const FD01: seq<string> := [
    "config reference: one http://www.one.com\n",
    "config reference: two http://www.two.com\n",
    "config reference: three http://www.three.com\n",
    "config reference: one http://www.one.com\n",
    "config reference: three http://www.three.com\n"
  ]

  /** One valid reference and four invalid ones. */
  const FD02: seq<string> := [
    "config reference: one http://www.one.com\n",
    "config_ reference: two http://www.two.com\n",
    "config reference_: three http://www.three.com\n",
    "config reference: four\n",
    "config reference five http://www.five.com\n"
  ]

  /** Every reference invalid. */
  const FD03: seq<string> := [
    "config reference one http://www.one.com\n",
    "config_ reference: two http://www.two.com\n",
    "config reference_: three http://www.three.com\n",
    "config reference: four\n"
  ]

  /** A canonical directive with a lower-case name defines that name. */
  lemma {:induction false} DirectiveDefines(sys: string, url: string)
    requires IsSystemName(sys) && IsLowerCase(sys) && url != [] && !IsSpace(url[0]) && '\n' !in url
    ensures Definition("config reference: " + sys + " " + url + "\n") == Some((sys, url))
  {
    var line := "config reference: " + sys + " " + url + "\n";
    assert line[0] == 'c';
    NotSkipped(line);
    MatchesDirective(sys, url);
    LowerOfLowerCase(sys);
  }

  lemma {:induction false} RejectedLine(line: string)
    requires line != [] && line[0] == 'c' && Match(line).None?
    ensures Definition(line) == None
  {
    NotSkipped(line);
  }

  lemma OneShape()
    ensures "config reference: one http://www.one.com\n" == "config reference: " + "one" + " " + "http://www.one.com" + "\n"
  {
  }

  lemma OneDefinition()
    ensures Definition("config reference: one http://www.one.com\n") == Some(("one", "http://www.one.com"))
  {
    OneShape();
    DirectiveDefines("one", "http://www.one.com");
  }

  lemma TwoShape()
    ensures "config reference: two http://www.two.com\n" == "config reference: " + "two" + " " + "http://www.two.com" + "\n"
  {
  }

  lemma TwoDefinition()
    ensures Definition("config reference: two http://www.two.com\n") == Some(("two", "http://www.two.com"))
  {
    TwoShape();
    DirectiveDefines("two", "http://www.two.com");
  }

  lemma ThreeShape()
    ensures "config reference: three http://www.three.com\n" == "config reference: " + "three" + " " + "http://www.three.com" + "\n"
  {
  }

  lemma ThreeDefinition()
    ensures Definition("config reference: three http://www.three.com\n") == Some(("three", "http://www.three.com"))
  {
    ThreeShape();
    DirectiveDefines("three", "http://www.three.com");
  }

  lemma GluedConfigShape()
    ensures "config_ reference: two http://www.two.com\n" == "config" + ['_'] + " reference: two http://www.two.com\n"
  {
  }

  lemma GluedConfigUndefined()
    ensures Definition("config_ reference: two http://www.two.com\n") == None
  {
    GluedConfigShape();
    RejectsGluedConfig('_', " reference: two http://www.two.com\n");
    RejectedLine("config_ reference: two http://www.two.com\n");
  }

  lemma GluedReferenceShape()
    ensures "config reference_: three http://www.three.com\n" == "config reference" + "" + ['_'] + ": three http://www.three.com\n"
  {
  }

  lemma GluedReferenceUndefined()
    ensures Definition("config reference_: three http://www.three.com\n") == None
  {
    GluedReferenceShape();
    RejectsMissingColon("", '_', ": three http://www.three.com\n");
    RejectedLine("config reference_: three http://www.three.com\n");
  }

  lemma MissingUrlShape()
    ensures "config reference: four\n" == "config reference: " + "four" + "\n"
  {
  }

  lemma MissingUrlUndefined()
    ensures Definition("config reference: four\n") == None
  {
    MissingUrlShape();
    RejectsMissingUrl("four");
    RejectedLine("config reference: four\n");
  }

  lemma MissingColonShape()
    ensures "config reference five http://www.five.com\n" == "config reference" + " " + ['f'] + "ive http://www.five.com\n"
  {
  }

  lemma MissingColonUndefined()
    ensures Definition("config reference five http://www.five.com\n") == None
  {
    MissingColonShape();
    RejectsMissingColon(" ", 'f', "ive http://www.five.com\n");
    RejectedLine("config reference five http://www.five.com\n");
  }

  lemma MissingColonBeforeOneShape()
    ensures "config reference one http://www.one.com\n" == "config reference" + " " + ['o'] + "ne http://www.one.com\n"
  {
  }

  lemma MissingColonBeforeOneUndefined()
    ensures Definition("config reference one http://www.one.com\n") == None
  {
    MissingColonBeforeOneShape();
    RejectsMissingColon(" ", 'o', "ne http://www.one.com\n");
    RejectedLine("config reference one http://www.one.com\n");
  }

  /** The table that entering the definitions ds, in order, builds. */
  function Entered(ds: seq<Option<(string, string)>>): map<string, Ref>
    decreases |ds|
  {
    if ds == [] then map[] else Insert(Entered(ds[..|ds| - 1]), ds[|ds| - 1])
  }

  /** Loading depends on the lines only through what each defines. */
  lemma {:induction false} LoadByDefinitions(lines: seq<string>, ds: seq<Option<(string, string)>>)
    requires |ds| == |lines|
    requires forall i :: 0 <= i < |lines| ==> Definition(lines[i]) == ds[i]
    ensures Load(lines) == Entered(ds)
    decreases |lines|
  {
    if lines != [] {
      var n := |lines| - 1;
      LoadOntoSnoc(map[], lines[..n], lines[n]);
      assert lines[..n] + [lines[n]] == lines;
      LoadByDefinitions(lines[..n], ds[..n]);
    }
  }

  const One := ("one", "http://www.one.com")
  const Two := ("two", "http://www.two.com")
  const Three := ("three", "http://www.three.com")

  /** What each line of the three buffers defines. */
  const FD01Defs: seq<Option<(string, string)>> := [Some(One), Some(Two), Some(Three), Some(One), Some(Three)]
  const FD02Defs: seq<Option<(string, string)>> := [Some(One), None, None, None, None]
  const FD03Defs: seq<Option<(string, string)>> := [None, None, None, None]

  lemma FD01Definitions()
    ensures forall i :: 0 <= i < |FD01| ==> Definition(FD01[i]) == FD01Defs[i]
  {
    forall i | 0 <= i < |FD01| ensures Definition(FD01[i]) == FD01Defs[i] {
      if i == 0 || i == 3 {
        OneDefinition();
      } else if i == 1 {
        TwoDefinition();
      } else {
        ThreeDefinition();
      }
    }
  }

  lemma FD02Definitions()
    ensures forall i :: 0 <= i < |FD02| ==> Definition(FD02[i]) == FD02Defs[i]
  {
    forall i | 0 <= i < |FD02| ensures Definition(FD02[i]) == FD02Defs[i] {
      if i == 0 {
        OneDefinition();
      } else if i == 1 {
        GluedConfigUndefined();
      } else if i == 2 {
        GluedReferenceUndefined();
      } else if i == 3 {
        MissingUrlUndefined();
      } else {
        MissingColonUndefined();
      }
    }
  }

  lemma FD03Definitions()
    ensures forall i :: 0 <= i < |FD03| ==> Definition(FD03[i]) == FD03Defs[i]
  {
    forall i | 0 <= i < |FD03| ensures Definition(FD03[i]) == FD03Defs[i] {
      if i == 0 {
        MissingColonBeforeOneUndefined();
      } else if i == 1 {
        GluedConfigUndefined();
      } else if i == 2 {
        GluedReferenceUndefined();
      } else {
        MissingUrlUndefined();
      }
    }
  }

  lemma {:induction false} EnteredSnoc(ds: seq<Option<(string, string)>>, d: Option<(string, string)>)
    ensures Entered(ds + [d]) == Insert(Entered(ds), d)
  {
    assert (ds + [d])[..|ds|] == ds;
  }

  lemma EnteredFD01()
    ensures Entered(FD01Defs) == map["one" := Ref("one", Some("http://www.one.com")),
                                     "two" := Ref("two", Some("http://www.two.com")),
                                     "three" := Ref("three", Some("http://www.three.com"))]
    ensures |Entered(FD01Defs)| == 3
    ensures "four" !in Entered(FD01Defs)
  {
    var d1 := [Some(One)];
    var d2 := d1 + [Some(Two)];
    var d3 := d2 + [Some(Three)];
    var d4 := d3 + [Some(One)];
    EnteredSnoc([], Some(One));
    assert [] + [Some(One)] == d1;
    EnteredSnoc(d1, Some(Two));
    EnteredSnoc(d2, Some(Three));
    EnteredSnoc(d3, Some(One));
    EnteredSnoc(d4, Some(Three));
    assert d4 + [Some(Three)] == FD01Defs;
    assert Entered(FD01Defs).Keys == {"one", "two", "three"};
  }

  lemma EnteredFD02()
    ensures Entered(FD02Defs) == map["one" := Ref("one", Some("http://www.one.com"))]
  {
    var d1 := [Some(One)];
    var d2 := d1 + [None];
    var d3 := d2 + [None];
    var d4 := d3 + [None];
    EnteredSnoc([], Some(One));
    assert [] + [Some(One)] == d1;
    EnteredSnoc(d1, None);
    EnteredSnoc(d2, None);
    EnteredSnoc(d3, None);
    EnteredSnoc(d4, None);
    assert d4 + [None] == FD02Defs;
  }

  lemma EnteredFD03()
    ensures Entered(FD03Defs) == map[]
  {
    var none: Option<(string, string)> := None;
    var d1 := [none];
    var d2 := d1 + [none];
    var d3 := d2 + [none];
    EnteredSnoc([], none);
    assert [] + [none] == d1;
    EnteredSnoc(d1, none);
    EnteredSnoc(d2, none);
    EnteredSnoc(d3, none);
    assert d3 + [none] == FD03Defs;
  }

  /** Loading FD01 keeps one entry per name, the first: three in all. */
  lemma LoadFD01()
    ensures Load(FD01) == map["one" := Ref("one", Some("http://www.one.com")),
                              "two" := Ref("two", Some("http://www.two.com")),
                              "three" := Ref("three", Some("http://www.three.com"))]
    ensures |Load(FD01)| == 3
    ensures "one" in Load(FD01) && "two" in Load(FD01) && "three" in Load(FD01) && "four" !in Load(FD01)
  {
    FD01Definitions();
    LoadByDefinitions(FD01, FD01Defs);
    EnteredFD01();
  }

  /** Loading FD02 keeps only "one". */
  lemma LoadFD02()
    ensures Load(FD02) == map["one" := Ref("one", Some("http://www.one.com"))]
    ensures |Load(FD02)| == 1
  {
    FD02Definitions();
    LoadByDefinitions(FD02, FD02Defs);
    EnteredFD02();
  }

  /** Loading FD03 keeps nothing. */
  lemma LoadFD03()
    ensures Load(FD03) == map[]
    ensures |Load(FD03)| == 0
  {
    FD03Definitions();
    LoadByDefinitions(FD03, FD03Defs);
    EnteredFD03();
  }

  /** The names the tests look up are already lower case. */
  lemma TestNamesLower()
    ensures Lower("one") == "one" && Lower("two") == "two" && Lower("three") == "three"
    ensures Lower("four") == "four" && Lower("five") == "five"
  {
    LowerOfLowerCase("one");
    LowerOfLowerCase("two");
    LowerOfLowerCase("three");
    LowerOfLowerCase("four");
    LowerOfLowerCase("five");
  }

  /** SCRConfTest01: loading FD01 leaves three entries. */
  method Test01() returns (result: bool)
    ensures result
  {
    var r := LoadReferenceConfigFile(Some(FD01));
    LoadFD01();
    result := r.value.count == 3;
  }

  /** SCRConfTest02: loading FD03 leaves no entry. */
  method Test02() returns (result: bool)
    ensures result
  {
    var r := LoadReferenceConfigFile(Some(FD03));
    LoadFD03();
    result := r.value.count == 0;
  }

  /** SCRConfTest03: loading FD02 leaves one entry. */
  method Test03() returns (result: bool)
    ensures result
  {
    var r := LoadReferenceConfigFile(Some(FD02));
    LoadFD02();
    result := r.value.count == 1;
  }

  /** SCRConfTest04: after FD01, "one", "two" and "three" are found and
      "four" is not. */
  method Test04() returns (result: bool)
    ensures result
  {
    var r := LoadReferenceConfigFile(Some(FD01));
    var table := r.value;
    LoadFD01();
    TestNamesLower();
    result := table.count == 3;
    var one := GetReference(table, "one");
    var two := GetReference(table, "two");
    var three := GetReference(table, "three");
    var four := GetReference(table, "four");
    result := result && one.Some? && two.Some? && three.Some? && four.None?;
  }

  /** SCRConfTest05: after FD03, none of the five names is found. */
  method Test05() returns (result: bool)
    ensures result
  {
    var r := LoadReferenceConfigFile(Some(FD03));
    var table := r.value;
    LoadFD03();
    TestNamesLower();
    result := table.count == 0;
    var one := GetReference(table, "one");
    var two := GetReference(table, "two");
    var three := GetReference(table, "three");
    var four := GetReference(table, "four");
    var five := GetReference(table, "five");
    result := result && one.None? && two.None? && three.None? && four.None? && five.None?;
  }

  /** SCRConfTest06: after FD02, only "one" is found. */
  method Test06() returns (result: bool)
    ensures result
  {
    var r := LoadReferenceConfigFile(Some(FD02));
    var table := r.value;
    LoadFD02();
    TestNamesLower();
    result := table.count == 1;
    var one := GetReference(table, "one");
    var two := GetReference(table, "two");
    var three := GetReference(table, "three");
    var four := GetReference(table, "four");
    var five := GetReference(table, "five");
    result := result && one.Some? && two.None? && three.None? && four.None? && five.None?;
  }

  /** After FD01, "ONE" and "One" find the entry stored for "one", and "FOUR"
      finds nothing. */
  method UpperCaseLookup() returns (result: bool)
    ensures result
  {
    var r := LoadReferenceConfigFile(Some(FD01));
    var table := r.value;
    LoadFD01();
    UpperCaseNames();
    var upper := GetReference(table, "ONE");
    var mixed := GetReference(table, "One");
    var four := GetReference(table, "FOUR");
    result := upper == Some(Ref("one", Some("http://www.one.com"))) && mixed == upper && four.None?;
  }

  lemma UpperCaseNames()
    ensures Lower("ONE") == "one" && Lower("One") == "one" && Lower("FOUR") == "four"
  {
    assert SameUpToCase("ONE", "one") && SameUpToCase("One", "one") && SameUpToCase("FOUR", "four");
    SameUpToCaseIsSameKey("ONE", "one");
    SameUpToCaseIsSameKey("One", "one");
    SameUpToCaseIsSameKey("FOUR", "four");
    LowerOfLowerCase("one");
    LowerOfLowerCase("four");
  }
}
