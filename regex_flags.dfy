/** The flag normaliser of the regex playground: only `[gimsuy]`, lower-cased,
    each letter once, in the order first typed. */
module RegexFlags {
  import opened Seqs
  import opened Text

  /** The letters of `new Set(['g', 'i', 'm', 's', 'u', 'y'])`. */
  predicate IsAllowedFlag(c: char) {
    c == 'g' || c == 'i' || c == 'm' || c == 's' || c == 'u' || c == 'y'
  }

  /** What the `flags` computed value yields for the raw flag text. */
  function NormalizedFlags(raw: string): string {
    Distinct(Filter(IsAllowedFlag, Lower(raw)))
  }

  /** The `flags` computed value: walks the lower-cased text and pushes each
      allowed letter not yet in `out`. */
  method NormalizeFlags(raw: string) returns (flags: string)
    ensures flags == NormalizedFlags(raw)
  {
    var lowered := Lower(raw);
    var out: string := [];
    ghost var kept: string := [];
    for i := 0 to |lowered|
      invariant kept == Filter(IsAllowedFlag, lowered[..i])
      invariant out == Distinct(kept)
    {
      var ch := lowered[i];
      assert lowered[..i + 1] == lowered[..i] + [ch];
      FilterSnoc(IsAllowedFlag, lowered[..i], ch);
      if IsAllowedFlag(ch) {
        DistinctSnoc(kept, ch);
        kept := kept + [ch];
        if ch !in out {
          out := out + [ch];
        }
      }
    }
    assert lowered[..|lowered|] == lowered;
    flags := out;
  }

  /** Filtering keeps relative order: of two kept elements, the one met first
      in the filtered sequence was met first in the original. */
  lemma {:induction false} FilterFirstIndexOrder<T(!new)>(p: T -> bool, s: seq<T>, x: T, y: T)
    requires x in Filter(p, s) && y in Filter(p, s)
    requires FirstIndex(Filter(p, s), x) < FirstIndex(Filter(p, s), y)
    ensures FirstIndex(s, x) < FirstIndex(s, y)
  {
    var f, f' := Filter(p, s), Filter(p, s[1..]);
    if p(s[0]) {
      assert f == [s[0]] + f';
      if x != s[0] {
        assert y != s[0];
        assert FirstIndex(f, x) == 1 + FirstIndex(f', x);
        assert FirstIndex(f, y) == 1 + FirstIndex(f', y);
        FilterFirstIndexOrder(p, s[1..], x, y);
      }
    } else {
      assert f == f';
      FilterFirstIndexOrder(p, s[1..], x, y);
    }
  }

  /** The normalised flags hold only allowed letters, each once; a letter is
      kept exactly when it occurs in the lower-cased raw text; and the letters
      come in the order of their first occurrence there. */
  lemma NormalizedFlagsShape(raw: string)
    ensures forall c :: c in NormalizedFlags(raw) ==> IsAllowedFlag(c)
    ensures NoDup(NormalizedFlags(raw))
    ensures forall c :: c in NormalizedFlags(raw) <==> IsAllowedFlag(c) && c in Lower(raw)
    ensures forall i, j :: 0 <= i < j < |NormalizedFlags(raw)| ==>
      FirstIndex(Lower(raw), NormalizedFlags(raw)[i]) < FirstIndex(Lower(raw), NormalizedFlags(raw)[j])
  {
    var f := Filter(IsAllowedFlag, Lower(raw));
    var d := NormalizedFlags(raw);
    DistinctFirstSeenOrder(f);
    forall i, j | 0 <= i < j < |d|
      ensures FirstIndex(Lower(raw), d[i]) < FirstIndex(Lower(raw), d[j])
    {
      assert d[i] in d && d[j] in d;
      FilterFirstIndexOrder(IsAllowedFlag, Lower(raw), d[i], d[j]);
    }
  }

  /** Normalising normalised flags changes nothing. */
  lemma NormalizeFlagsIdempotent(raw: string)
    ensures NormalizedFlags(NormalizedFlags(raw)) == NormalizedFlags(raw)
  {
    var f := NormalizedFlags(raw);
    NormalizedFlagsShape(raw);
    assert forall k :: 0 <= k < |f| ==> f[k] in f && LowerChar(f[k]) == f[k];
    assert Lower(f) == f;
    FilterKeepsAll(IsAllowedFlag, f);
    DistinctOfNoDup(f);
  }

  /** The flags of the copy used for iteration: the normalised flags, with
      'g' appended when it is missing. */
  function IterFlags(flags: string): (r: string)
    ensures 'g' in r
    ensures |flags| <= |r| && r[..|flags|] == flags
    ensures |r| == if 'g' in flags then |flags| else |flags| + 1
    ensures forall c :: c in r <==> c in flags || c == 'g'
  {
    if 'g' in flags then flags else flags + "g"
  }

  /** The iteration flags of normalised flags are themselves normalised:
      allowed letters only, none twice. */
  lemma IterFlagsNormalized(raw: string)
    ensures forall c :: c in IterFlags(NormalizedFlags(raw)) ==> IsAllowedFlag(c)
    ensures NoDup(IterFlags(NormalizedFlags(raw)))
  {
    NormalizedFlagsShape(raw);
  }
}
