/**
 * The registry's mutable state and its transaction-id counter.
 *
 * `State::next_txid` hands out the counter's current value and advances the
 * counter by one. `Issued` says, as a function, which ids a run of such calls
 * hands out; the lemmas below prove that those ids are consecutive, strictly
 * increasing and never repeated, and `State.NextTxid` is proved against it.
 */
module Registry {
  import opened Types

  // ---------------------------------------------------------------------
  // Specification of issuance
  // ---------------------------------------------------------------------

  /**
   * The ids handed out by `n` successive calls of `next_txid` when the
   * counter starts at `k`: each call returns the current value and leaves
   * the counter one higher for the next call.
   */
  function Issued(k: int, n: nat): (ids: seq<int>)
    decreases n
  {
    if n == 0 then [] else [k] + Issued(k + 1, n - 1)
  }

  /** The i-th call of a run starting at `k` hands out `k + i`: no gaps. */
  lemma {:induction false} IssuedConsecutive(k: int, n: nat)
    ensures |Issued(k, n)| == n
    ensures forall i :: 0 <= i < n ==> Issued(k, n)[i] == k + i
    decreases n
  {
    if n > 0 {
      IssuedConsecutive(k + 1, n - 1);
    }
  }

  /** A run hands out strictly increasing ids, hence never the same id twice. */
  lemma IssuedStrictlyIncreasing(k: int, n: nat)
    ensures forall i, j :: 0 <= i < j < |Issued(k, n)| ==> Issued(k, n)[i] < Issued(k, n)[j]
    ensures forall i, j :: 0 <= i < |Issued(k, n)| && 0 <= j < |Issued(k, n)| && i != j ==>
      Issued(k, n)[i] != Issued(k, n)[j]
  {
    IssuedConsecutive(k, n);
  }

  /** A run of `m + n` calls is a run of `m` calls followed by a run of `n` calls from where it stopped. */
  lemma {:induction false} IssuedSplit(k: int, m: nat, n: nat)
    ensures Issued(k, m + n) == Issued(k, m) + Issued(k + m, n)
    decreases m
  {
    if m > 0 {
      IssuedSplit(k + 1, m - 1, n);
      assert Issued(k, m + n) == [k] + Issued(k + 1, m - 1 + n);
    }
  }

  /** No id handed out by a later run repeats one handed out by an earlier run. */
  lemma IssuedDisjoint(k: int, m: nat, n: nat)
    ensures forall x :: x in Issued(k, m) ==> x !in Issued(k + m, n)
  {
    IssuedConsecutive(k, m);
    IssuedConsecutive(k + m, n);
    forall x | x in Issued(k, m)
      ensures x !in Issued(k + m, n)
    {
      var i :| 0 <= i < m && Issued(k, m)[i] == x;
      assert x < k + m;
    }
  }

  /**
   * A run of `n` calls from counter `k` never overflows `u128` exactly when
   * `k + n` stays within `u128::MAX`: every call then finds the counter
   * below `u128::MAX`, and every id fits in `u128`.
   */
  lemma IssuedWithinU128(k: int, n: nat)
    requires 0 <= k <= U128_MAX
    ensures k + n <= U128_MAX ==>
      forall i :: 0 <= i < |Issued(k, n)| ==> 0 <= Issued(k, n)[i] < U128_MAX
    ensures k + n > U128_MAX ==>
      exists i :: 0 <= i < |Issued(k, n)| && Issued(k, n)[i] >= U128_MAX
  {
    IssuedConsecutive(k, n);
    if k + n > U128_MAX {
      assert Issued(k, n)[n - 1] >= U128_MAX;
    }
  }

  // ---------------------------------------------------------------------
  // The state
  // ---------------------------------------------------------------------

  /**
   * The registry's state, updated in place.
   *
   * The ghost `origin` is the counter's value when the object was made (or
   * last rebased) and the ghost `issued` lists every id handed out since;
   * `Valid` ties them to the counter. The counter is a public field, so code
   * holding the state may write it directly; `Rebase` then restarts the log
   * from the counter's new value.
   */
  class State {
    var weatherData: WeatherResult
    var hashes: seq<(string, Hash)>
    var name: string
    var symbol: string
    var txid: U128

    ghost var origin: int
    ghost var issued: seq<int>

    ghost predicate Valid()
      reads this
    {
      txid as int == origin + |issued| && issued == Issued(origin, |issued|)
    }

    /** The state as built from its fields; no id has been handed out yet. */
    constructor (weatherData: WeatherResult, hashes: seq<(string, Hash)>, name: string, symbol: string, txid: U128)
      ensures Valid()
      ensures this.weatherData == weatherData && this.hashes == hashes
      ensures this.name == name && this.symbol == symbol && this.txid == txid
      ensures origin == txid as int && issued == []
    {
      this.weatherData := weatherData;
      this.hashes := hashes;
      this.name := name;
      this.symbol := symbol;
      this.txid := txid;
      origin := txid as int;
      issued := [];
    }

    /** Restarts the ghost log at the counter's current value, whatever was written to it. */
    ghost method Rebase()
      modifies this
      ensures Valid()
      ensures origin == txid as int && issued == []
      ensures txid == old(txid) && weatherData == old(weatherData) && hashes == old(hashes)
      ensures name == old(name) && symbol == old(symbol)
    {
      origin := txid as int;
      issued := [];
    }

    /**
     * `next_txid`: returns the counter's value before the call and advances
     * the counter by one, leaving every other field as it was. The id is
     * greater than, so different from, every id handed out before.
     */
    method NextTxid() returns (id: U128)
      requires Valid()
      requires txid as int < U128_MAX
      modifies this
      ensures Valid()
      ensures id == old(txid)
      ensures txid as int == old(txid) as int + 1
      ensures weatherData == old(weatherData) && hashes == old(hashes)
      ensures name == old(name) && symbol == old(symbol)
      ensures issued == old(issued) + [id as int]
      ensures forall x :: x in old(issued) ==> x < id as int
    {
      id := txid;
      txid := txid + 1;
      IssuedSplit(origin, |issued|, 1);
      IssuedConsecutive(origin, |issued|);
      assert Issued(origin + |issued|, 1) == [id as int];
      issued := issued + [id as int];
    }
  }

  /** Every id a valid state has handed out so far is its origin plus the call's position. */
  lemma HistoryConsecutive(s: State)
    requires s.Valid()
    ensures forall i :: 0 <= i < |s.issued| ==> s.issued[i] == s.origin + i
    ensures forall i, j :: 0 <= i < j < |s.issued| ==> s.issued[i] < s.issued[j]
    ensures s.txid as int == s.origin + |s.issued|
  {
    IssuedConsecutive(s.origin, |s.issued|);
  }

  /** The unit of persistence: exactly one state. */
  datatype StableState = StableState(state: State)

  /**
   * `n` calls in a row hand out exactly the ids of `Issued` from the
   * counter's starting value, log them, advance the counter by `n` and
   * leave every other field as it was. `IssuedWithinU128` says which `n`
   * the requires admits.
   */
  method NextTxids(s: State, n: nat) returns (ids: seq<U128>)
    requires s.Valid()
    requires s.txid as int + n <= U128_MAX
    modifies s
    ensures s.Valid()
    ensures |ids| == n
    ensures forall i :: 0 <= i < |ids| ==> ids[i] as int == old(s.txid) as int + i
    ensures s.issued == old(s.issued) + Issued(old(s.txid) as int, n)
    ensures s.txid as int == old(s.txid) as int + n
    ensures s.weatherData == old(s.weatherData) && s.hashes == old(s.hashes)
    ensures s.name == old(s.name) && s.symbol == old(s.symbol)
  {
    ghost var k := s.txid as int;
    ids := [];
    var j := 0;
    while j < n
      invariant 0 <= j <= n
      invariant s.Valid()
      invariant |ids| == j
      invariant forall i :: 0 <= i < j ==> ids[i] as int == k + i
      invariant s.txid as int == k + j
      invariant s.issued == old(s.issued) + Issued(k, j)
      invariant s.weatherData == old(s.weatherData) && s.hashes == old(s.hashes)
      invariant s.name == old(s.name) && s.symbol == old(s.symbol)
    {
      var id := s.NextTxid();
      IssuedSplit(k, j, 1);
      assert Issued(k + j, 1) == [k + j];
      ids := ids + [id];
      j := j + 1;
    }
  }
}
