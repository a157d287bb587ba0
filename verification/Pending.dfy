/** Reservations of request ids until their responses arrive. */
module Pending {
  import opened Options
  import Entry
  import Utf8

  /** One outstanding request; an empty tool marks a request that is not audited. */
  datatype Call = Call(tool: string, args: Entry.Raw, decision: string, size: nat)

  datatype Table = Table(calls: map<string, Call>, bytes: int)

  datatype Refusal = IdReuse | Full

  const MAX_CALLS := 1024
  const MAX_BYTES := 64 * 1024 * 1024

  const EMPTY := Table(map[], 0)

  // ---------- Accounting of bytes ----------

  ghost function Sizes(calls: map<string, Call>): nat {
    if calls == map[] then 0
    else
      var k :| k in calls;
      calls[k].size + Sizes(calls - {k})
  }

  lemma {:induction false} SizesWithout(calls: map<string, Call>, k: string)
    requires k in calls
    ensures Sizes(calls) == calls[k].size + Sizes(calls - {k})
    decreases |calls|
  {
    var j :| j in calls && Sizes(calls) == calls[j].size + Sizes(calls - {j});
    if j != k {
      SizesWithout(calls - {j}, k);
      SizesWithout(calls - {k}, j);
      assert (calls - {j}) - {k} == (calls - {k}) - {j};
    }
  }

  lemma SizesWith(calls: map<string, Call>, k: string, c: Call)
    requires k !in calls
    ensures Sizes(calls[k := c]) == Sizes(calls) + c.size
  {
    SizesWithout(calls[k := c], k);
    assert calls[k := c] - {k} == calls;
  }

  /** What every operation keeps: exact byte count, both bounds, room never negative. */
  ghost predicate Sound(t: Table) {
    && t.bytes == Sizes(t.calls)
    && 0 <= t.bytes <= MAX_BYTES
    && |t.calls| <= MAX_CALLS
  }

  /** Go's len of a string: its bytes in UTF-8. */
  function Len(s: string): nat { |Utf8.Encode(s)| }

  function CallOf(key: string, tool: string, args: Entry.Raw, width: nat, decision: string): Call {
    Call(tool, args, decision, Len(key) + Len(tool) + width)
  }

  /** Why a reservation is refused; None when it is made. */
  function Refuses(t: Table, key: string, size: nat): Option<Refusal> {
    if key in t.calls then Some(IdReuse)
    else if |t.calls| >= MAX_CALLS || size > MAX_BYTES - t.bytes then Some(Full)
    else None
  }

  function Reserved(t: Table, key: string, c: Call): Table {
    Table(t.calls[key := c], t.bytes + c.size)
  }

  function Released(t: Table, key: string): Table {
    if key in t.calls then Table(t.calls - {key}, t.bytes - t.calls[key].size) else t
  }

  lemma ReservedSound(t: Table, key: string, c: Call)
    requires Sound(t) && Refuses(t, key, c.size).None?
    ensures Sound(Reserved(t, key, c)) && |Reserved(t, key, c).calls| == |t.calls| + 1
  {
    SizesWith(t.calls, key, c);
    assert t.calls[key := c].Keys == t.calls.Keys + {key};
  }

  /** A reservation is refused exactly when its key is taken or the table would leave its bounds. */
  lemma RefusesExactly(t: Table, key: string, c: Call)
    requires Sound(t)
    ensures Refuses(t, key, c.size).None? <==> key !in t.calls && Sound(Reserved(t, key, c))
    ensures Refuses(t, key, c.size) == Some(IdReuse) <==> key in t.calls
  {
    if key !in t.calls {
      SizesWith(t.calls, key, c);
      assert t.calls[key := c].Keys == t.calls.Keys + {key};
    }
  }

  lemma ReleasedSound(t: Table, key: string)
    requires Sound(t)
    ensures Sound(Released(t, key))
    ensures key in t.calls ==> |Released(t, key).calls| == |t.calls| - 1
  {
    if key in t.calls {
      SizesWithout(t.calls, key);
      assert (t.calls - {key}).Keys == t.calls.Keys - {key};
    }
  }

  /** A response undoes exactly its own reservation. */
  lemma ReleaseUndoes(t: Table, key: string, c: Call)
    requires Sound(t) && Refuses(t, key, c.size).None?
    ensures Released(Reserved(t, key, c), key) == t
  {
    assert t.calls[key := c] - {key} == t.calls;
  }

  /** Reservations under different keys do not disturb each other, in either order. */
  lemma ReservationsCommute(t: Table, k: string, c: Call, j: string)
    requires k != j
    ensures Released(Reserved(t, k, c), j) == Reserved(Released(t, j), k, c)
  {
    if j in t.calls {
      assert t.calls[k := c] - {j} == (t.calls - {j})[k := c];
    }
  }

  // ---------- The shared object ----------

  class Reservations {
    var calls: map<string, Call>
    var bytes: int

    ghost predicate Valid()
      reads this
    {
      Sound(View())
    }

    function View(): Table
      reads this
    {
      Table(calls, bytes)
    }

    constructor ()
      ensures Valid() && View() == EMPTY
    {
      calls, bytes := map[], 0;
    }

    /** Under the mutex: one reservation per key, within both bounds, or an error and no change. */
    method Remember(key: string, tool: string, args: Entry.Raw, width: nat, decision: string)
      returns (e: Option<Refusal>)
      requires Valid()
      modifies this
      ensures Valid()
      ensures var c := CallOf(key, tool, args, width, decision);
              && e == old(Refuses(View(), key, c.size))
              && View() == if e.None? then old(Reserved(View(), key, c)) else old(View())
    {
      if key in calls {
        return Some(IdReuse);
      }
      var size := Len(key) + Len(tool) + width;
      if |calls| >= MAX_CALLS || size > MAX_BYTES - bytes {
        return Some(Full);
      }
      ReservedSound(View(), key, Call(tool, args, decision, size));
      calls := calls[key := Call(tool, args, decision, size)];
      bytes := bytes + size;
      e := None;
    }

    /** Under the mutex: the reservation of this key, released. */
    method Take(key: string) returns (c: Option<Call>)
      requires Valid()
      modifies this
      ensures Valid()
      ensures c == old(if key in calls then Some(calls[key]) else None)
      ensures View() == old(Released(View(), key))
    {
      ReleasedSound(View(), key);
      if key !in calls {
        return None;
      }
      c := Some(calls[key]);
      bytes := bytes - calls[key].size;
      calls := calls - {key};
    }
  }
}
