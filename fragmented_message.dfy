/** UNetLib.Channel.FragmentedMessage: the fragments of one message received so far,
    keyed by fragment index, and the count the first fragment announced. */
module Fragments {
  import opened Wrappers
  import opened Bytes

  /** The indices 0 to n - 1. */
  function Range(n: nat): (r: set<Byte>)
    requires n <= 256
    ensures |r| == n
    ensures forall i: Byte :: i in r <==> i < n
  {
    if n == 0 then {} else Range(n - 1) + {(n - 1) as Byte}
  }

  /** Fragments 0 to n - 1 concatenated in index order; a missing index fails the lookup. */
  function Joined(fragments: map<Byte, seq<Byte>>, n: nat): (r: Result<seq<Byte>>)
    requires n <= 256
    ensures r.Ok? <==> Range(n) <= fragments.Keys
    ensures r.Err? ==> r == Err(KeyNotFound)
  {
    if n == 0 then Ok([])
    else
      var head :- Joined(fragments, n - 1);
      if (n - 1) as Byte in fragments then Ok(head + fragments[(n - 1) as Byte]) else Err(KeyNotFound)
  }

  /** The summed length of fragments 0 to n - 1. */
  function TotalLength(fragments: map<Byte, seq<Byte>>, n: nat): nat
    requires n <= 256 && Range(n) <= fragments.Keys
  {
    if n == 0 then 0 else TotalLength(fragments, n - 1) + |fragments[(n - 1) as Byte]|
  }

  /** With every index present the join succeeds, and its length is the summed length. */
  lemma {:induction false} JoinedLength(fragments: map<Byte, seq<Byte>>, n: nat)
    requires n <= 256 && Range(n) <= fragments.Keys
    ensures Joined(fragments, n).Ok? && |Joined(fragments, n).value| == TotalLength(fragments, n)
  {
    if n > 0 {
      JoinedLength(fragments, n - 1);
    }
  }

  /** A subset of equal size is the whole set. */
  lemma SameSizeSubset<T>(a: set<T>, b: set<T>)
    requires a <= b && |a| == |b|
    ensures a == b
  {
    assert |b - a| == |b| - |a|;
  }

  // ----- the message's state as a value -----

  /** The stored fragments, the count announced by the first fragment, and the counter
      of accepted fragments. */
  datatype FragmentState = FragmentState(fragments: map<Byte, seq<Byte>>, total: Byte, received: int)

  /** The counter equals the number of distinct indices stored. */
  predicate Counted(st: FragmentState)
  {
    st.received == |st.fragments.Keys|
  }

  predicate IsComplete(st: FragmentState)
  {
    st.received == st.total
  }

  /** `AddFragment`: the state after storing fragment `index`, and whether it is complete. */
  function Add(st: FragmentState, index: Byte, data: seq<Byte>): (FragmentState, bool)
  {
    var st' := if index in st.fragments then st
               else st.(fragments := st.fragments[index := data], received := st.received + 1);
    (st', IsComplete(st'))
  }

  /** `Reassemble`: an incomplete message fails; a complete one joins 0 to total - 1. */
  function Reassembled(st: FragmentState): Result<seq<Byte>>
  {
    if !IsComplete(st) then Err(InvalidOperation) else Joined(st.fragments, st.total)
  }

  /** A repeated index keeps the bytes first stored and does not count again; a new one is
      stored and counted. Either way the result tells whether the count reached the total. */
  lemma AddStoresOnce(st: FragmentState, index: Byte, data: seq<Byte>)
    ensures index in st.fragments ==> Add(st, index, data).0 == st
    ensures index !in st.fragments ==> Add(st, index, data).0.fragments == st.fragments[index := data]
                                       && Add(st, index, data).0.received == st.received + 1
    ensures index in Add(st, index, data).0.fragments
    ensures Add(st, index, data).1 <==> Add(st, index, data).0.received == st.total
  {
  }

  /** Adding keeps the counter equal to the number of distinct indices. */
  lemma AddKeepsCounted(st: FragmentState, index: Byte, data: seq<Byte>)
    requires Counted(st)
    ensures Counted(Add(st, index, data).0)
  {
  }

  /** Reassembling before the count reaches the total fails with InvalidOperation. */
  lemma IncompleteFails(st: FragmentState)
    requires !IsComplete(st)
    ensures Reassembled(st) == Err(InvalidOperation)
  {
  }

  /** When the stored indices are exactly 0 to total - 1, reassembly succeeds with every
      stored fragment, in index order, and nothing else. */
  lemma {:induction false} CompleteReassembles(st: FragmentState)
    requires Counted(st) && IsComplete(st) && Range(st.total) <= st.fragments.Keys
    ensures st.fragments.Keys == Range(st.total)
    ensures Reassembled(st).Ok? && |Reassembled(st).value| == TotalLength(st.fragments, st.total)
  {
    SameSizeSubset(Range(st.total), st.fragments.Keys);
    JoinedLength(st.fragments, st.total);
  }

  /** An index at or past the total still counts towards completion, but then some index
      below the total is absent and reassembly fails on the lookup. */
  lemma StrayIndexFailsJoin(st: FragmentState, stray: Byte)
    requires Counted(st) && IsComplete(st) && stray in st.fragments && stray >= st.total
    ensures Reassembled(st) == Err(KeyNotFound)
  {
    if Range(st.total) <= st.fragments.Keys {
      SameSizeSubset(Range(st.total), st.fragments.Keys);
      assert false;
    }
  }

  class FragmentedMessage {
    var fragments: map<Byte, seq<Byte>>
    const totalFragments: Byte
    var receivedFragments: int

    function State(): FragmentState
      reads this
    {
      FragmentState(fragments, totalFragments, receivedFragments)
    }

    constructor (totalFragments: Byte)
      ensures State() == FragmentState(map[], totalFragments, 0)
    {
      fragments := map[];
      this.totalFragments := totalFragments;
      receivedFragments := 0;
    }

    method AddFragment(index: Byte, data: seq<Byte>) returns (complete: bool)
      modifies this
      ensures (State(), complete) == Add(old(State()), index, data)
    {
      if index in fragments {
        return receivedFragments == totalFragments;
      }
      fragments := fragments[index := data];
      receivedFragments := receivedFragments + 1;
      complete := receivedFragments == totalFragments;
    }

    method Reassemble() returns (r: Result<seq<Byte>>)
      ensures r == Reassembled(State())
    {
      if receivedFragments != totalFragments {
        return Err(InvalidOperation);
      }
      var buffer: seq<Byte> := [];
      for i := 0 to totalFragments
        invariant Joined(fragments, i) == Ok(buffer)
      {
        if i as Byte !in fragments {
          return Err(KeyNotFound);
        }
        buffer := buffer + fragments[i as Byte];
      }
      r := Ok(buffer);
    }
  }
}
