/** The reference table: 128 hash buckets of entries, keyed by the exact
    bytes of the (already lowered) system name. */
module RefStore {
  import opened CType
  import opened Wrappers
  import opened Canon

  /** The number of buckets the table is created with. */
  const ArraySize: nat := 128

  /** The range of `uint32_t`, the type the hash is accumulated in. */
  const Word: nat := 0x1_0000_0000

  /** The sum of the character codes of s. */
  function CodeSum(s: string): nat {
    if s == [] then 0 else CodeSum(s[..|s| - 1]) + s[|s| - 1] as int
  }

  /** What the hash function computes for an entry whose system name is
      system: the lowered bytes summed in a `uint32_t`, which wraps, then
      reduced modulo the number of buckets. */
  function HashValue(system: string, size: nat): nat
    requires size > 0
  {
    CodeSum(Lower(system)) % Word % size
  }

  lemma {:induction false} LowerPrefix(s: string, i: nat)
    requires i < |s|
    ensures Lower(s[..i + 1])[..i] == Lower(s[..i])
    ensures Lower(s[..i + 1])[i] == ToLower(s[i])
  {
  }

  lemma {:induction false} AddModWord(a: nat, b: nat)
    ensures (a % Word + b) % Word == (a + b) % Word
  {
  }

  /** Sums the lowered bytes one at a time, wrapping like `uint32_t`. */
  method ReferenceHash(ref: Ref, arraySize: nat) returns (hash: nat)
    requires arraySize > 0
    ensures hash == HashValue(ref.system, arraySize)
    ensures hash < arraySize
  {
    var s := ref.system;
    var h: nat := 0;
    for i := 0 to |s|
      invariant h == CodeSum(Lower(s[..i])) % Word
    {
      LowerPrefix(s, i);
      AddModWord(CodeSum(Lower(s[..i])), ToLower(s[i]) as int);
      h := (h + ToLower(s[i]) as int) % Word;
    }
    assert s[..|s|] == s;
    hash := h % arraySize;
  }

  /** The hash sees only the lowered bytes, so names that differ only in the
      case of letters hash alike. */
  lemma {:induction false} HashSeesCanonicalForm(s: string, size: nat)
    requires size > 0
    ensures HashValue(Lower(s), size) == HashValue(s, size) < size
  {
    LowerProperties(s);
  }

  /** 128 divides 2^32, so the `uint32_t` wrap never changes the bucket. */
  lemma {:induction false} WrapDoesNotMoveBucket(s: string)
    ensures HashValue(s, ArraySize) == CodeSum(Lower(s)) % ArraySize
  {
    var x := CodeSum(Lower(s));
    assert x == (x / Word) * Word + x % Word;
  }

  /** The first n bytes of s and t agree (`memcmp(s, t, n) == 0`). */
  function MemEqual(s: string, t: string, n: nat): (r: bool)
    requires n <= |s| && n <= |t|
    ensures r <==> s[..n] == t[..n]
  {
    if n == 0 then true
    else
      assert s[..n] == s[..n - 1] + [s[n - 1]] && t[..n] == t[..n - 1] + [t[n - 1]];
      MemEqual(s, t, n - 1) && s[n - 1] == t[n - 1]
  }

  /** The table's equality: both entries present and system names of the
      same length with the same bytes. */
  function CompareReferences(a: Option<Ref>, b: Option<Ref>): (equal: bool)
    ensures equal <==> a.Some? && b.Some? && a.value.system == b.value.system
  {
    if a.None? || b.None? then false
    else
      |a.value.system| == |b.value.system|
      && MemEqual(a.value.system, b.value.system, |a.value.system|)
  }

  lemma {:induction false} CompareSymmetric(a: Option<Ref>, b: Option<Ref>)
    ensures CompareReferences(a, b) == CompareReferences(b, a)
  {
  }

  /** Names that differ only in the case of their letters are the same key
      once canonicalised, and land in the same bucket. */
  lemma {:induction false} CaseVariantsCollide(x: string, y: string, u: Option<string>, v: Option<string>)
    requires SameUpToCase(x, y)
    ensures CompareReferences(Some(Ref(Lower(x), u)), Some(Ref(Lower(y), v)))
    ensures HashValue(x, ArraySize) == HashValue(y, ArraySize)
  {
    SameUpToCaseIsSameKey(x, y);
  }

  /** Every entry of bs sits in the bucket its system name hashes to and is
      the entry m holds for that name; every entry of m sits in its bucket;
      no bucket holds a system name twice. */
  ghost predicate WellFormed(bs: seq<seq<Ref>>, m: map<string, Ref>) {
    |bs| == ArraySize
    && (forall b, i :: 0 <= b < |bs| && 0 <= i < |bs[b]| ==>
          HashValue(bs[b][i].system, ArraySize) == b
          && bs[b][i].system in m && m[bs[b][i].system] == bs[b][i])
    && (forall k :: k in m ==> m[k].system == k && m[k] in bs[HashValue(k, ArraySize)])
    && (forall b, i, j :: 0 <= b < |bs| && 0 <= i < j < |bs[b]| ==>
          bs[b][i].system != bs[b][j].system)
  }

  /** Appending a new name to the chain of its bucket keeps the table well
      formed and adds exactly that name to its map. */
  lemma {:induction false} AppendKeepsWellFormed(bs: seq<seq<Ref>>, m: map<string, Ref>, ref: Ref)
    requires WellFormed(bs, m) && ref.system !in m
    ensures WellFormed(bs[HashValue(ref.system, ArraySize) := bs[HashValue(ref.system, ArraySize)] + [ref]],
                       m[ref.system := ref])
  {
    var h := HashValue(ref.system, ArraySize);
    var bs': seq<seq<Ref>> := bs[h := bs[h] + [ref]];
    var m': map<string, Ref> := m[ref.system := ref];
    forall b: int, i: int | 0 <= b < |bs'| && 0 <= i < |bs'[b]|
      ensures HashValue(bs'[b][i].system, ArraySize) == b
              && bs'[b][i].system in m' && m'[bs'[b][i].system] == bs'[b][i]
    {
      if b != h || i < |bs[h]| {
        assert bs'[b][i] == bs[b][i];
      }
    }
    forall k | k in m'
      ensures m'[k].system == k && m'[k] in bs'[HashValue(k, ArraySize)]
    {
      if k != ref.system {
        assert m[k] in bs[HashValue(k, ArraySize)];
      }
    }
    forall b: int, i: int, j: int | 0 <= b < |bs'| && 0 <= i < j < |bs'[b]|
      ensures bs'[b][i].system != bs'[b][j].system
    {
      if b == h && j == |bs[h]| {
        assert bs[h][i].system in m;
      }
    }
  }

  /** de_ctx->reference_conf_ht: 128 buckets of entries, count the number of
      entries. Contents is the table seen as a map from system name to
      entry. */
  class ReferenceTable {
    var buckets: array<seq<Ref>>
    var count: nat
    ghost var Contents: map<string, Ref>

    ghost predicate Valid()
      reads this, buckets
    {
      buckets.Length == ArraySize && count == |Contents| && WellFormed(buckets[..], Contents)
    }

    /** `HashTableInit(128, ...)`: an empty table. */
    constructor ()
      ensures Valid() && fresh(buckets)
      ensures Contents == map[] && count == 0
    {
      buckets := new seq<Ref>[ArraySize](_ => []);
      count := 0;
      Contents := map[];
    }

    /** `HashTableLookup`: walks the chain of probe's bucket and returns the
        first entry the compare function accepts. */
    method Lookup(probe: Ref) returns (found: Option<Ref>)
      requires Valid()
      ensures found == if probe.system in Contents then Some(Contents[probe.system]) else None
    {
      var h := ReferenceHash(probe, buckets.Length);
      var chain := buckets[h];
      assert chain == buckets[..][h];
      assert probe.system in Contents ==> Contents[probe.system] in chain;
      var i := 0;
      while i < |chain|
        invariant 0 <= i <= |chain|
        invariant forall j :: 0 <= j < i ==> chain[j].system != probe.system
      {
        if CompareReferences(Some(probe), Some(chain[i])) {
          return Some(chain[i]);
        }
        i := i + 1;
      }
      return None;
    }

    /** `HashTableAdd`: appends ref to the chain of its bucket and counts it.
        The loader adds only names the table does not hold. */
    method Add(ref: Ref)
      requires Valid() && ref.system !in Contents
      modifies this, buckets
      ensures Valid() && buckets == old(buckets)
      ensures Contents == old(Contents)[ref.system := ref]
      ensures count == old(count) + 1
    {
      var h := ReferenceHash(ref, buckets.Length);
      AppendKeepsWellFormed(buckets[..], Contents, ref);
      buckets[h] := buckets[h] + [ref];
      count := count + 1;
      Contents := Contents[ref.system := ref];
    }
  }
}
