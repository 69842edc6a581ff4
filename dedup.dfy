/** Order-preserving removal of elements whose fingerprint an earlier
    element already has: the `seen`-set loop of the fusion step. */
module Deduplication {
  import opened Py

  /** The fingerprints of the elements of `s`. */
  function Fingerprints<T(==), F(==)>(s: seq<T>, fp: T -> F): set<F>
  {
    set x | x in s :: fp(x)
  }

  /** Keep an element exactly when no element kept before it has its
      fingerprint, scanning from the left. */
  function Dedup<T(==), F(==)>(s: seq<T>, fp: T -> F): seq<T>
  {
    if s == [] then []
    else
      var kept := Dedup(s[..|s| - 1], fp);
      if fp(s[|s| - 1]) in Fingerprints(kept, fp) then kept else kept + [s[|s| - 1]]
  }

  /** Element `i` is the first of `s` with its fingerprint. */
  predicate FirstOfItsKind<T(==), F(==)>(s: seq<T>, fp: T -> F, i: int)
    requires 0 <= i < |s|
  {
    forall j :: 0 <= j < i ==> fp(s[j]) != fp(s[i])
  }

  /** `idx` lists strictly increasing positions of `s`, and `r` is what sits there. */
  predicate Embeds<T(==)>(r: seq<T>, s: seq<T>, idx: seq<int>)
  {
    && |idx| == |r|
    && (forall k :: 0 <= k < |idx| ==> 0 <= idx[k] < |s| && r[k] == s[idx[k]])
    && (forall k, l :: 0 <= k < l < |idx| ==> idx[k] < idx[l])
  }

  /** The positions of the first element of each fingerprint, in order. */
  function FirstPositions<T(==), F(==)>(s: seq<T>, fp: T -> F): seq<int>
  {
    if s == [] then []
    else
      var earlier := FirstPositions(s[..|s| - 1], fp);
      if fp(s[|s| - 1]) in Fingerprints(s[..|s| - 1], fp) then earlier
      else earlier + [|s| - 1]
  }

  /** Nothing is lost but repeats: the kept elements carry every fingerprint of the input. */
  lemma {:induction false} DedupFingerprints<T, F>(s: seq<T>, fp: T -> F)
    ensures Fingerprints(Dedup(s, fp), fp) == Fingerprints(s, fp)
  {
    if s != [] {
      var init := s[..|s| - 1];
      DedupFingerprints(init, fp);
      assert s == init + [s[|s| - 1]];
      assert Fingerprints(s, fp) == Fingerprints(init, fp) + {fp(s[|s| - 1])};
      var kept := Dedup(init, fp);
      assert Fingerprints(kept + [s[|s| - 1]], fp) == Fingerprints(kept, fp) + {fp(s[|s| - 1])};
    }
  }

  /** One element is kept per distinct fingerprint of the input. */
  lemma {:induction false} DedupCount<T, F>(s: seq<T>, fp: T -> F)
    ensures |Dedup(s, fp)| == |Fingerprints(s, fp)|
  {
    if s != [] {
      var init := s[..|s| - 1];
      var x := s[|s| - 1];
      DedupCount(init, fp);
      DedupFingerprints(init, fp);
      assert s == init + [x];
      assert Fingerprints(s, fp) == Fingerprints(init, fp) + {fp(x)};
      var kept := Dedup(init, fp);
      if fp(x) !in Fingerprints(kept, fp) {
        assert |Fingerprints(s, fp)| == |Fingerprints(init, fp)| + 1;
        assert Dedup(s, fp) == kept + [x];
      } else {
        assert Fingerprints(s, fp) == Fingerprints(init, fp);
      }
    }
  }

  /** No two kept elements share a fingerprint. */
  lemma {:induction false} DedupUnique<T, F>(s: seq<T>, fp: T -> F)
    ensures forall i, j :: 0 <= i < j < |Dedup(s, fp)| ==> fp(Dedup(s, fp)[i]) != fp(Dedup(s, fp)[j])
  {
    if s != [] {
      var init := s[..|s| - 1];
      DedupUnique(init, fp);
      var kept := Dedup(init, fp);
      var x := s[|s| - 1];
      if fp(x) !in Fingerprints(kept, fp) {
        var r := kept + [x];
        forall i, j | 0 <= i < j < |r| ensures fp(r[i]) != fp(r[j]) {
          if j == |kept| {
            assert r[i] == kept[i] && kept[i] in kept;
          }
        }
      }
    }
  }

  /** The kept elements are exactly the first occurrence of each
      fingerprint, in input order. */
  lemma {:induction false} DedupKeepsFirsts<T, F>(s: seq<T>, fp: T -> F)
    ensures Embeds(Dedup(s, fp), s, FirstPositions(s, fp))
    ensures forall i :: 0 <= i < |s| ==> (i in FirstPositions(s, fp) <==> FirstOfItsKind(s, fp, i))
  {
    if s != [] {
      var init := s[..|s| - 1];
      var x := s[|s| - 1];
      DedupKeepsFirsts(init, fp);
      DedupFingerprints(init, fp);
      var kept := Dedup(init, fp);
      var idx := FirstPositions(init, fp);
      var idx' := FirstPositions(s, fp);
      assert forall k :: 0 <= k < |idx| ==> idx[k] < |init|;
      forall i | 0 <= i < |s| ensures (i in idx' <==> FirstOfItsKind(s, fp, i)) {
        if i < |init| {
          assert i in idx' <==> i in idx;
          assert FirstOfItsKind(s, fp, i) <==> FirstOfItsKind(init, fp, i);
        } else {
          if fp(x) in Fingerprints(init, fp) {
            var y :| y in init && fp(y) == fp(x);
            var j :| 0 <= j < |init| && init[j] == y;
            assert s[j] == y;
          } else {
            forall j | 0 <= j < i ensures fp(s[j]) != fp(s[i]) {
              assert s[j] == init[j] && init[j] in init;
            }
          }
        }
      }
    }
  }

  lemma FingerprintsSnoc<T, F>(s: seq<T>, x: T, fp: T -> F)
    ensures Fingerprints(s + [x], fp) == Fingerprints(s, fp) + {fp(x)}
  {
  }

  /** One more element: kept exactly when its fingerprint is new. */
  lemma DedupSnoc<T, F>(s: seq<T>, x: T, fp: T -> F)
    ensures Dedup(s + [x], fp) ==
      if fp(x) in Fingerprints(Dedup(s, fp), fp) then Dedup(s, fp) else Dedup(s, fp) + [x]
  {
    assert (s + [x])[..|s + [x]| - 1] == s;
  }

  /** A prefix of an embedding is an embedding of the prefix. */
  lemma EmbedsPrefix<T>(r: seq<T>, s: seq<T>, idx: seq<int>, n: nat)
    requires Embeds(r, s, idx) && n <= |r|
    ensures Embeds(r[..n], s, idx[..n])
  {
  }

  /** The first `limit` kept elements sit, in order, at first occurrences of
      their fingerprints; a first occurrence is missing only when `limit`
      elements were already kept ahead of it. */
  lemma TakeDedupKeepsFirsts<T, F>(s: seq<T>, fp: T -> F, limit: nat)
    requires limit > 0
    ensures var r := Take(Dedup(s, fp), limit);
            exists idx ::
              && Embeds(r, s, idx)
              && (forall k :: 0 <= k < |idx| ==> FirstOfItsKind(s, fp, idx[k]))
              && (forall i :: 0 <= i < |s| && FirstOfItsKind(s, fp, i) && i !in idx ==>
                    |r| == limit && idx[limit - 1] < i)
  {
    var d := Dedup(s, fp);
    var all := FirstPositions(s, fp);
    DedupKeepsFirsts(s, fp);
    var n := Min(limit, |d|);
    var idx := all[..n];
    EmbedsPrefix(d, s, all, n);
    assert Take(d, limit) == d[..n];
    forall k | 0 <= k < |idx| ensures FirstOfItsKind(s, fp, idx[k]) {
      assert idx[k] == all[k] && all[k] in all;
    }
    forall i | 0 <= i < |s| && FirstOfItsKind(s, fp, i) && i !in idx
      ensures n == limit && idx[limit - 1] < i
    {
      assert i in all;
      var m :| 0 <= m < |all| && all[m] == i;
      assert forall k :: 0 <= k < n ==> all[k] in idx;
      assert n <= m;
      assert all[n - 1] < all[m];
    }
  }
}
