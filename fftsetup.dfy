/**
  * The cache of transform setups: one KissFft object per length and
  * direction, kept in a `std::map` under the key `genKey(fftLen, inverse)`.
  * The map is modelled as what it is underneath, a sequence of entries in
  * ascending key order, with AsMap as its view as a map.
  */
module FftSetups {

  import opened Complex
  import opened Arith
  import opened Fft

  /** `genKey`: twice the length, plus one for the inverse direction. */
  function GenKey(fftLen: int, inverse: bool): int
  {
    fftLen * 2 + (if inverse then 1 else 0)
  }

  /** The key gives back the length (its half) and the direction (its parity). */
  lemma GenKeyDecodes(fftLen: int, inverse: bool)
    ensures GenKey(fftLen, inverse) / 2 == fftLen
    ensures GenKey(fftLen, inverse) % 2 == 1 <==> inverse
  {
    DivModUnique(GenKey(fftLen, inverse), 2, fftLen, if inverse then 1 else 0);
  }

  /** Two setups share a key exactly when they have the same length and direction. */
  lemma GenKeyInjective(len1: int, inv1: bool, len2: int, inv2: bool)
    ensures GenKey(len1, inv1) == GenKey(len2, inv2) <==> len1 == len2 && inv1 == inv2
  {
    GenKeyDecodes(len1, inv1);
    GenKeyDecodes(len2, inv2);
  }

  /** One element of the map: a key and the setup stored under it. */
  datatype Entry = Entry(key: int, setup: KissFft)

  /** Keys strictly ascending, the order a `std::map` keeps and iterates in. */
  predicate Ascending(es: seq<Entry>) {
    forall i, j :: 0 <= i < j < |es| ==> es[i].key < es[j].key
  }

  /** The entries as a map from key to setup. */
  function AsMap(es: seq<Entry>): map<int, KissFft> {
    if |es| == 0 then map[] else AsMap(es[1..])[es[0].key := es[0].setup]
  }

  /** Each entry of an ordered sequence is what the map holds under its key. */
  lemma {:induction false} AsMapAt(es: seq<Entry>, i: nat)
    requires Ascending(es) && i < |es|
    ensures es[i].key in AsMap(es) && AsMap(es)[es[i].key] == es[i].setup
  {
    if i > 0 {
      AsMapAt(es[1..], i - 1);
    }
  }

  /** A key no entry has is not in the map. */
  lemma {:induction false} AsMapMissing(es: seq<Entry>, key: int)
    requires forall i :: 0 <= i < |es| ==> es[i].key != key
    ensures key !in AsMap(es)
  {
    if |es| > 0 {
      AsMapMissing(es[1..], key);
    }
  }

  /** Updates under two different keys commute. */
  lemma MapUpdateSwap(m: map<int, KissFft>, a: int, va: KissFft, b: int, vb: KissFft)
    requires a != b
    ensures m[a := va][b := vb] == m[b := vb][a := va]
  {
  }

  /** Removing a key commutes with an update under another key. */
  lemma MapUpdateRemove(m: map<int, KissFft>, a: int, va: KissFft, k: int)
    requires a != k
    ensures (m - {k})[a := va] == m[a := va] - {k}
  {
  }

  /** Inserting an entry whose key the earlier entries do not have adds that key to the map. */
  lemma {:induction false} AsMapInsert(es: seq<Entry>, i: nat, e: Entry)
    requires i <= |es|
    requires forall k :: 0 <= k < i ==> es[k].key != e.key
    ensures AsMap(es[..i] + [e] + es[i..]) == AsMap(es)[e.key := e.setup]
  {
    var es' := es[..i] + [e] + es[i..];
    if i == 0 {
      assert es'[1..] == es;
    } else {
      var tail := es[1..];
      AsMapInsert(tail, i - 1, e);
      assert es'[1..] == tail[..i - 1] + [e] + tail[i - 1..];
      assert es'[0] == es[0];
      MapUpdateSwap(AsMap(tail), e.key, e.setup, es[0].key, es[0].setup);
    }
  }

  /** Erasing entry `i`, whose key no other entry has, removes that key from the map. */
  lemma {:induction false} AsMapRemove(es: seq<Entry>, i: nat)
    requires i < |es|
    requires forall k :: 0 <= k < |es| && k != i ==> es[k].key != es[i].key
    ensures AsMap(es[..i] + es[i + 1..]) == AsMap(es) - {es[i].key}
  {
    var es' := es[..i] + es[i + 1..];
    if i == 0 {
      assert es' == es[1..];
      AsMapMissing(es[1..], es[0].key);
    } else {
      var tail := es[1..];
      AsMapRemove(tail, i - 1);
      assert es'[1..] == tail[..i - 1] + tail[i..];
      assert es'[0] == es[0];
      MapUpdateRemove(AsMap(tail), es[0].key, es[0].setup, es[i].key);
    }
  }

  /** The twiddle values of each length and direction, one table per pair. */
  type Expi = (nat, bool) -> nat -> Cpx

  /**
    * What the manager keeps true of its entries: keys ascending, and each
    * setup under the key of its own length and direction, with the plan and
    * the twiddle table its constructor leaves for that length and direction.
    */
  predicate EntriesOk(es: seq<Entry>, expi: Expi)
  {
    && Ascending(es)
    && forall i :: 0 <= i < |es| ==> SetupOk(es[i], expi)
  }

  /** One entry as the constructor of its setup leaves it, under its own key. */
  predicate SetupOk(e: Entry, expi: Expi)
  {
    && e.key == GenKey(e.setup.nfft, e.setup.inverse)
    && e.setup.PlanOk()
    && e.setup.TwiddlesFrom(expi(e.setup.nfft, e.setup.inverse))
  }

  /** Inserting a well-formed entry at its place in the order keeps the entries well-formed. */
  lemma EntriesOkInsert(es: seq<Entry>, i: nat, e: Entry, expi: Expi)
    requires EntriesOk(es, expi) && i <= |es|
    requires forall k :: 0 <= k < i ==> es[k].key < e.key
    requires forall k :: i <= k < |es| ==> e.key < es[k].key
    requires SetupOk(e, expi)
    ensures EntriesOk(es[..i] + [e] + es[i..], expi)
  {
    var es' := es[..i] + [e] + es[i..];
    assert forall k :: 0 <= k < |es'| ==> es'[k] == if k < i then es[k] else if k == i then e else es[k - 1];
  }

  /** Erasing an entry keeps the entries well-formed. */
  lemma EntriesOkRemove(es: seq<Entry>, i: nat, expi: Expi)
    requires EntriesOk(es, expi) && i < |es|
    ensures EntriesOk(es[..i] + es[i + 1..], expi)
  {
    var es' := es[..i] + es[i + 1..];
    assert forall k :: 0 <= k < |es'| ==> es'[k] == if k < i then es[k] else es[k + 1];
  }

  class FftSetupManager {
    /** `fftSetups`, in key order. */
    var entries: seq<Entry>
    /** The setups the cache holds and their scratch buffers. */
    ghost var Repr: set<object>
    /**
      * exp(i * phinc) for each length and direction (phinc = -2 * pi / nfft,
      * or +2 * pi / nfft for the inverse): the table every setup the cache
      * constructs is filled from, a fixed function of length and direction.
      */
    const expi: Expi

    /**
      * The entries are well formed, and each setup, with the scratch buffer
      * it uses, is one the manager tracks and is ready for a transform.
      */
    ghost predicate Valid()
      reads this, Repr
    {
      this !in Repr && EntriesOk(entries, expi) && AllOwned(entries)
    }

    /** Every setup of `es` is tracked and ready. */
    ghost predicate AllOwned(es: seq<Entry>)
      reads this`Repr, Repr
    {
      forall i :: 0 <= i < |es| ==> Owned(es[i].setup)
    }

    /** Inserting an entry whose setup is tracked and ready keeps every setup so. */
    lemma AllOwnedInsert(es: seq<Entry>, i: nat, e: Entry)
      requires AllOwned(es) && Owned(e.setup) && i <= |es|
      ensures AllOwned(es[..i] + [e] + es[i..])
    {
      var es' := es[..i] + [e] + es[i..];
      assert forall k :: 0 <= k < |es'| ==> es'[k] == if k < i then es[k] else if k == i then e else es[k - 1];
    }

    /** Erasing an entry keeps every remaining setup tracked and ready. */
    lemma AllOwnedRemove(es: seq<Entry>, i: nat)
      requires AllOwned(es) && i < |es|
      ensures AllOwned(es[..i] + es[i + 1..])
    {
      var es' := es[..i] + es[i + 1..];
      assert forall k :: 0 <= k < |es'| ==> es'[k] == if k < i then es[k] else es[k + 1];
    }

    /** The setup and its scratch buffer are tracked, and the scratch buffer fits the plan. */
    ghost predicate Owned(setup: KissFft)
      reads this`Repr, Repr
    {
      && setup in Repr
      && (setup.scratchBuf != null ==> setup.scratchBuf in Repr)
      && setup.ScratchOk()
    }

    /** The cache as a map from key to setup. */
    function Setups(): map<int, KissFft>
      reads this
    {
      AsMap(entries)
    }

    constructor (expi: Expi)
      ensures Valid() && Setups() == map[] && this.expi == expi
    {
      entries := [];
      Repr := {};
      this.expi := expi;
    }

    /**
      * The search `fftSetups.find(key)` does: the first entry whose key is
      * not below key. The key is cached exactly when that entry has it.
      */
    method LowerBound(key: int) returns (i: nat)
      requires Ascending(entries)
      ensures i <= |entries|
      ensures forall k :: 0 <= k < i ==> entries[k].key < key
      ensures forall k :: i <= k < |entries| ==> key <= entries[k].key
    {
      i := 0;
      while i < |entries| && entries[i].key < key
        invariant i <= |entries| && forall k :: 0 <= k < i ==> entries[k].key < key
      {
        i := i + 1;
      }
    }

    /**
      * `getFftSetup`: the cached setup for this length and direction, or a
      * new one, constructed without a scratch buffer and then cached. Either
      * way it is ready for a transform, with the twiddle table of its length
      * and direction.
      */
    method GetFftSetup(fftLen: int, inverse: bool) returns (r: KissFft)
      requires Valid() && fftLen >= 0
      modifies this
      ensures Valid() && r.nfft == fftLen && r.inverse == inverse
      ensures r.Valid() && r.TwiddlesFrom(expi(fftLen, inverse))
      ensures GenKey(fftLen, inverse) in Setups() && Setups()[GenKey(fftLen, inverse)] == r
      ensures GenKey(fftLen, inverse) in old(Setups()) ==> r == old(Setups())[GenKey(fftLen, inverse)] && entries == old(entries)
      ensures GenKey(fftLen, inverse) !in old(Setups()) ==>
                fresh(r) && Setups() == old(Setups())[GenKey(fftLen, inverse) := r]
    {
      var key := GenKey(fftLen, inverse);
      var i := LowerBound(key);
      if i < |entries| && entries[i].key == key {
        r := Cached(i);
        AsMapAt(entries, i);
        GenKeyInjective(r.nfft, r.inverse, fftLen, inverse);
        return;
      }
      AsMapMissing(entries, key);
      ghost var before := entries;
      r := AddSetup(fftLen, inverse, i);
      AsMapInsert(before, i, Entry(key, r));
    }

    /**
      * The hit branch of `getFftSetup`: the setup stored at position i, under
      * the key of its length and direction, ready for a transform with the
      * twiddle table of that length and direction.
      */
    method Cached(i: nat) returns (r: KissFft)
      requires Valid() && i < |entries|
      ensures r == entries[i].setup && entries[i].key == GenKey(r.nfft, r.inverse)
      ensures r.Valid() && r.TwiddlesFrom(expi(r.nfft, r.inverse))
    {
      r := entries[i].setup;
      assert SetupOk(entries[i], expi) && Owned(r);
    }

    /**
      * The miss branch of `getFftSetup`: a new setup, constructed without a
      * scratch buffer, stored at its place `i` in key order.
      */
    method AddSetup(fftLen: int, inverse: bool, i: nat) returns (r: KissFft)
      requires Valid() && fftLen >= 0 && i <= |entries|
      requires forall k :: 0 <= k < i ==> entries[k].key < GenKey(fftLen, inverse)
      requires forall k :: i <= k < |entries| ==> GenKey(fftLen, inverse) < entries[k].key
      modifies this
      ensures Valid() && fresh(r) && r.nfft == fftLen && r.inverse == inverse
      ensures r.Valid() && r.TwiddlesFrom(expi(fftLen, inverse))
      ensures entries == old(entries[..i]) + [Entry(GenKey(fftLen, inverse), r)] + old(entries[i..])
    {
      r := new KissFft(fftLen, inverse, null, expi(fftLen, inverse));
      var e := Entry(GenKey(fftLen, inverse), r);
      EntriesOkInsert(entries, i, e, expi);
      Track(r);
      AllOwnedInsert(entries, i, e);
      var es := entries[..i] + [e] + entries[i..];
      assert AllOwned(es) && EntriesOk(es, expi);
      entries := es;
      assert AllOwned(entries);
    }

    /** Adds a ready setup and its scratch buffer to the tracked objects. */
    method Track(r: KissFft)
      requires this !in Repr && AllOwned(entries) && r.ScratchOk()
      modifies this`Repr
      ensures this !in Repr && AllOwned(entries) && Owned(r)
      ensures Repr == old(Repr) + {r} + (if r.scratchBuf != null then {r.scratchBuf} else {})
    {
      Repr := Repr + {r} + (if r.scratchBuf != null then {r.scratchBuf} else {});
      assert forall k :: 0 <= k < |entries| ==> Owned(entries[k].setup) by {
        forall k | 0 <= k < |entries|
          ensures Owned(entries[k].setup)
        {
          assert old(Owned(entries[k].setup));
        }
      }
    }

    /** A second request for the same length and direction returns the object the first one cached. */
    method GetTwice(fftLen: int, inverse: bool) returns (first: KissFft, second: KissFft)
      requires Valid() && fftLen >= 0
      modifies this
      ensures Valid() && first == second
      ensures first.Valid() && first.TwiddlesFrom(expi(fftLen, inverse))
      ensures Setups() == old(Setups())[GenKey(fftLen, inverse) := first]
    {
      first := GetFftSetup(fftLen, inverse);
      second := GetFftSetup(fftLen, inverse);
    }

    /** `removeFftSetup`: erases the setup of this length and direction, if there is one. */
    method RemoveFftSetup(fftLen: int, inverse: bool)
      requires Valid()
      modifies this
      ensures Valid() && Setups() == old(Setups()) - {GenKey(fftLen, inverse)}
    {
      var key := GenKey(fftLen, inverse);
      var i := LowerBound(key);
      if i == |entries| || entries[i].key != key {
        AsMapMissing(entries, key);
        return;
      }
      AsMapRemove(entries, i);
      RemoveAt(i);
    }

    /** The erase of `removeFftSetup` and `cleanUp`: drops entry i, keeping the rest in order. */
    method RemoveAt(i: nat)
      requires Valid() && i < |entries|
      modifies this
      ensures Valid() && entries == old(entries[..i] + entries[i + 1..])
    {
      EntriesOkRemove(entries, i, expi);
      AllOwnedRemove(entries, i);
      var es := entries[..i] + entries[i + 1..];
      assert AllOwned(es) && EntriesOk(es, expi);
      entries := es;
      assert AllOwned(entries);
    }

    /** `cleanUp`, which the destructor also calls: erases the first entry until none is left. */
    method CleanUp()
      requires Valid()
      modifies this
      ensures Valid() && entries == [] && Setups() == map[]
    {
      while |entries| > 0
        invariant Valid()
      {
        RemoveAt(0);
      }
    }
  }
}
