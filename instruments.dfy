/**
 * Option instruments as the market-data API returns them, and the filter that
 * narrows a fetch to one expiration cohort (`filter_by_expiry`, the same text
 * in both pipeline scripts).
 */
module Instruments {

  /** One option instrument. Only the five fields the pipeline reads are kept;
      `R` stands for the two decimal fields (strike, minimum trade amount), which
      the pipeline copies and never computes with. */
  datatype Instrument<R> = Instrument(
    instrumentName: string,
    strike: R,
    expirationTimestamp: int,
    optionType: string,
    minTradeAmount: R)

  /** Every instrument of `xs` expires at `t`. */
  predicate AllExpireAt<R(==)>(xs: seq<Instrument<R>>, t: int)
  {
    forall i | 0 <= i < |xs| :: xs[i].expirationTimestamp == t
  }

  /** How many instruments of `xs` expire at `t`. */
  function CountExpiringAt<R(==)>(xs: seq<Instrument<R>>, t: int): nat
  {
    if xs == [] then 0
    else (if xs[0].expirationTimestamp == t then 1 else 0) + CountExpiringAt(xs[1..], t)
  }

  /** `sub` is `xs` with some elements dropped and the others kept in their order. */
  predicate IsSubsequence<T(==)>(sub: seq<T>, xs: seq<T>)
    decreases |xs|
  {
    if sub == [] then true
    else if xs == [] then false
    else (sub[0] == xs[0] && IsSubsequence(sub[1..], xs[1..])) || IsSubsequence(sub, xs[1..])
  }

  /** The comprehension `[i for i in xs if i["expiration_timestamp"] == t]`. */
  function KeepExpiringAt<R(==)>(xs: seq<Instrument<R>>, t: int): (r: seq<Instrument<R>>)
    ensures |r| <= |xs|
    ensures AllExpireAt(r, t)
  {
    if xs == [] then []
    else if xs[0].expirationTimestamp == t then [xs[0]] + KeepExpiringAt(xs[1..], t)
    else KeepExpiringAt(xs[1..], t)
  }

  /** `filter_by_expiry`: the cohort of the first instrument fetched, in fetch
      order; the empty fetch gives the empty cohort. */
  function FilterByExpiry<R(==)>(instruments: seq<Instrument<R>>): (r: seq<Instrument<R>>)
    ensures instruments == [] ==> r == []
    ensures instruments != [] ==>
      && r != []
      && r[0] == instruments[0]
      && AllExpireAt(r, instruments[0].expirationTimestamp)
    ensures |r| <= |instruments|
  {
    if instruments == [] then []
    else KeepExpiringAt(instruments, instruments[0].expirationTimestamp)
  }

  /** The cohort holds only instruments of the fetch, and every instrument of
      the fetch that expires at `t`. */
  lemma {:induction false} KeepExpiringAtMembers<R>(xs: seq<Instrument<R>>, t: int)
    ensures forall x | x in KeepExpiringAt(xs, t) :: x in xs && x.expirationTimestamp == t
    ensures forall i | 0 <= i < |xs| && xs[i].expirationTimestamp == t :: xs[i] in KeepExpiringAt(xs, t)
  {
    if xs != [] {
      KeepExpiringAtMembers(xs[1..], t);
      forall i | 1 <= i < |xs| ensures xs[i] == xs[1..][i - 1] {}
    }
  }

  /** The cohort has exactly as many members as the fetch has instruments at that expiry. */
  lemma {:induction false} KeepExpiringAtCount<R>(xs: seq<Instrument<R>>, t: int)
    ensures |KeepExpiringAt(xs, t)| == CountExpiringAt(xs, t)
  {
    if xs != [] {
      KeepExpiringAtCount(xs[1..], t);
    }
  }

  /** The cohort keeps the fetch order. */
  lemma {:induction false} KeepExpiringAtIsSubsequence<R>(xs: seq<Instrument<R>>, t: int)
    ensures IsSubsequence(KeepExpiringAt(xs, t), xs)
  {
    if xs != [] {
      KeepExpiringAtIsSubsequence(xs[1..], t);
      var r := KeepExpiringAt(xs, t);
      if xs[0].expirationTimestamp == t {
        assert r[0] == xs[0] && r[1..] == KeepExpiringAt(xs[1..], t);
      } else {
        SubsequenceFromTail(r, xs);
      }
    }
  }

  /** Dropping the head of `xs` keeps every subsequence of its tail a subsequence. */
  lemma SubsequenceFromTail<T>(sub: seq<T>, xs: seq<T>)
    requires xs != [] && IsSubsequence(sub, xs[1..])
    ensures IsSubsequence(sub, xs)
  {
  }

  /** An in-order selection of instruments expiring at `t` has at most as many
      members as the fetch has instruments at `t`. */
  lemma {:induction false} SubsequenceCountBound<R>(sub: seq<Instrument<R>>, xs: seq<Instrument<R>>, t: int)
    requires IsSubsequence(sub, xs) && AllExpireAt(sub, t)
    ensures |sub| <= CountExpiringAt(xs, t)
  {
    if sub != [] {
      assert xs != [];
      if sub[0] == xs[0] && IsSubsequence(sub[1..], xs[1..]) {
        assert AllExpireAt(sub[1..], t) by {
          forall i | 0 <= i < |sub[1..]| ensures sub[1..][i].expirationTimestamp == t {
            assert sub[1..][i] == sub[i + 1];
          }
        }
        SubsequenceCountBound(sub[1..], xs[1..], t);
        assert sub[0].expirationTimestamp == t;
      } else {
        SubsequenceCountBound(sub, xs[1..], t);
      }
    }
  }

  /** The cohort is the only in-order selection of instruments at `t` that
      misses none of them: order, exclusion and completeness determine it. */
  lemma {:induction false} KeepExpiringAtUnique<R>(sub: seq<Instrument<R>>, xs: seq<Instrument<R>>, t: int)
    requires IsSubsequence(sub, xs) && AllExpireAt(sub, t)
    requires |sub| == CountExpiringAt(xs, t)
    ensures sub == KeepExpiringAt(xs, t)
  {
    if xs == [] {
      assert sub == [];
    } else if xs[0].expirationTimestamp == t {
      assert sub != [];
      if sub[0] == xs[0] && IsSubsequence(sub[1..], xs[1..]) {
        assert AllExpireAt(sub[1..], t) by {
          forall i | 0 <= i < |sub[1..]| ensures sub[1..][i].expirationTimestamp == t {
            assert sub[1..][i] == sub[i + 1];
          }
        }
        KeepExpiringAtUnique(sub[1..], xs[1..], t);
        assert sub == [sub[0]] + sub[1..];
      } else {
        SubsequenceCountBound(sub, xs[1..], t);
        assert false;
      }
    } else {
      if sub != [] {
        assert sub[0].expirationTimestamp == t;
      }
      KeepExpiringAtUnique(sub, xs[1..], t);
    }
  }

  /** Reference characterisation of `filter_by_expiry` on a non-empty fetch: a
      sequence is its result exactly when it lists, in fetch order, instruments
      of the first instrument's expiry and all of them. */
  lemma FilterByExpiryCharacterised<R>(instruments: seq<Instrument<R>>, sub: seq<Instrument<R>>)
    requires instruments != []
    ensures sub == FilterByExpiry(instruments) <==>
      var t := instruments[0].expirationTimestamp;
      IsSubsequence(sub, instruments) && AllExpireAt(sub, t) && |sub| == CountExpiringAt(instruments, t)
  {
    var t := instruments[0].expirationTimestamp;
    KeepExpiringAtIsSubsequence(instruments, t);
    KeepExpiringAtCount(instruments, t);
    if IsSubsequence(sub, instruments) && AllExpireAt(sub, t) && |sub| == CountExpiringAt(instruments, t) {
      KeepExpiringAtUnique(sub, instruments, t);
    }
  }

  /** Instruments that already share the expiry `t` all pass the filter. */
  lemma {:induction false} KeepExpiringAtOfCohort<R>(xs: seq<Instrument<R>>, t: int)
    requires AllExpireAt(xs, t)
    ensures KeepExpiringAt(xs, t) == xs
  {
    if xs != [] {
      assert AllExpireAt(xs[1..], t) by {
        forall i | 0 <= i < |xs[1..]| ensures xs[1..][i].expirationTimestamp == t {
          assert xs[1..][i] == xs[i + 1];
        }
      }
      KeepExpiringAtOfCohort(xs[1..], t);
      assert xs == [xs[0]] + xs[1..];
    }
  }

  /** Filtering an already filtered fetch changes nothing. */
  lemma FilterByExpiryIdempotent<R>(instruments: seq<Instrument<R>>)
    ensures FilterByExpiry(FilterByExpiry(instruments)) == FilterByExpiry(instruments)
  {
    if instruments != [] {
      var r := FilterByExpiry(instruments);
      KeepExpiringAtOfCohort(r, instruments[0].expirationTimestamp);
    }
  }

  /** One step of the comprehension: the head is kept exactly when it expires at `t`. */
  lemma KeepExpiringAtStep<R>(xs: seq<Instrument<R>>, t: int)
    requires xs != []
    ensures KeepExpiringAt(xs, t)
         == (if xs[0].expirationTimestamp == t then [xs[0]] else []) + KeepExpiringAt(xs[1..], t)
  {
  }

  /** A fetch at expiries 100, 100, 200, 100, 300 keeps the instruments at
      positions 0, 1 and 3, in that order. */
  lemma FilterByExpiryExample<R>(a: Instrument<R>, b: Instrument<R>, c: Instrument<R>, d: Instrument<R>, e: Instrument<R>)
    requires a.expirationTimestamp == 100 && b.expirationTimestamp == 100 && c.expirationTimestamp == 200
    requires d.expirationTimestamp == 100 && e.expirationTimestamp == 300
    ensures FilterByExpiry([a, b, c, d, e]) == [a, b, d]
  {
    var xs := [a, b, c, d, e];
    KeepExpiringAtStep(xs[4..], 100);
    assert xs[4..][1..] == [];
    KeepExpiringAtStep(xs[3..], 100);
    assert xs[3..][1..] == xs[4..];
    KeepExpiringAtStep(xs[2..], 100);
    assert xs[2..][1..] == xs[3..];
    KeepExpiringAtStep(xs[1..], 100);
    assert xs[1..][1..] == xs[2..];
    KeepExpiringAtStep(xs, 100);
  }
}
