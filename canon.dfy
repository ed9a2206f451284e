/** The canonical form of a system name and the entries built from it. */
module Canon {
  import opened CType
  import opened Wrappers

  /** Byte-wise `tolower`. */
  function Lower(s: string): string {
    seq(|s|, i requires 0 <= i < |s| => ToLower(s[i]))
  }

  predicate IsLowerCase(s: string) {
    forall i :: 0 <= i < |s| ==> !IsUpper(s[i])
  }

  /** One entry of the table: the system name, and the url (absent for an
      entry built only to probe the table). */
  datatype Ref = Ref(system: string, url: Option<string>)

  /** Copies str and lowers the copy one byte at a time. */
  method StringToLowercase(str: string) returns (r: string)
    ensures r == Lower(str)
  {
    var copy := new char[|str|](i requires 0 <= i < |str| => str[i]);
    var i := 0;
    while i < copy.Length
      invariant 0 <= i <= copy.Length == |str|
      invariant forall j :: 0 <= j < i ==> copy[j] == ToLower(str[j])
      invariant forall j :: i <= j < copy.Length ==> copy[j] == str[j]
    {
      copy[i] := ToLower(copy[i]);
      i := i + 1;
    }
    r := copy[..];
  }

  /** An entry whose system name is the lowered copy of system and whose url
      is url unchanged; no entry without a system name. */
  method AllocReference(system: Option<string>, url: Option<string>) returns (ref: Option<Ref>)
    ensures system.None? ==> ref.None?
    ensures system.Some? ==> ref == Some(Ref(Lower(system.value), url))
  {
    if system.None? {
      return None;
    }
    var lowered := StringToLowercase(system.value);
    return Some(Ref(lowered, url));
  }

  /** Lowering keeps the length, leaves no upper-case letter behind, and
      changes nothing the second time. */
  lemma {:induction false} LowerProperties(s: string)
    ensures |Lower(s)| == |s| && IsLowerCase(Lower(s))
    ensures Lower(Lower(s)) == Lower(s)
  {
    assert forall i :: 0 <= i < |s| ==> ToLower(ToLower(s[i])) == ToLower(s[i]);
  }

  /** A name without upper-case letters is its own canonical form. */
  lemma {:induction false} LowerOfLowerCase(s: string)
    requires IsLowerCase(s)
    ensures Lower(s) == s
  {
  }

  /** Two names have the same canonical form exactly when they agree
      byte by byte up to the case of letters. */
  lemma {:induction false} SameCanonicalForm(a: string, b: string)
    ensures Lower(a) == Lower(b) <==> |a| == |b| && forall i :: 0 <= i < |a| ==> ToLower(a[i]) == ToLower(b[i])
  {
    if |a| == |b| && forall i :: 0 <= i < |a| ==> ToLower(a[i]) == ToLower(b[i]) {
      assert forall i :: 0 <= i < |a| ==> Lower(a)[i] == Lower(b)[i];
    }
    if Lower(a) == Lower(b) {
      assert |Lower(a)| == |a| && |Lower(b)| == |b|;
      forall i | 0 <= i < |a|
        ensures ToLower(a[i]) == ToLower(b[i])
      {
        assert Lower(a)[i] == Lower(b)[i];
      }
    }
  }

  /** Two bytes are the same up to case: equal, or one an upper-case letter
      and the other the byte 32 above it, its lower-case partner. */
  predicate SameByteUpToCase(a: char, b: char) {
    a == b
    || (IsUpper(a) && b as int == a as int + 32)
    || (IsUpper(b) && a as int == b as int + 32)
  }

  /** Two names that differ at most in the case of their letters. */
  predicate SameUpToCase(x: string, y: string) {
    |x| == |y| && forall i :: 0 <= i < |x| ==> SameByteUpToCase(x[i], y[i])
  }

  lemma {:induction false} SameByteIsSameLowered(a: char, b: char)
    ensures SameByteUpToCase(a, b) <==> ToLower(a) == ToLower(b)
  {
  }

  /** Names lower to the same key exactly when they differ at most in the
      case of their letters. */
  lemma {:induction false} SameUpToCaseIsSameKey(x: string, y: string)
    ensures SameUpToCase(x, y) <==> Lower(x) == Lower(y)
  {
    SameCanonicalForm(x, y);
    forall i | 0 <= i < |x| && i < |y|
      ensures SameByteUpToCase(x[i], y[i]) <==> ToLower(x[i]) == ToLower(y[i])
    {
      SameByteIsSameLowered(x[i], y[i]);
    }
  }
}
