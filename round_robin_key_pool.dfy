/** The plain round-robin key pool of ai_server/key_manager.py: no rate limit,
    every call on a non-empty pool hands out the key under the cursor and moves
    the cursor on by one, wrapping at the end of the list. */
module RoundRobinKeyPool {
  import opened Common

  ghost predicate CursorInRange(apiKeys: seq<string>, index: nat)
  {
    if apiKeys == [] then index == 0 else index < |apiKeys|
  }

  /** One `get_available_key` call: the key handed out and the new cursor. */
  function Acquire(apiKeys: seq<string>, index: nat): (r: (Option<string>, nat))
    requires CursorInRange(apiKeys, index)
    ensures CursorInRange(apiKeys, r.1)
    ensures r.0.None? <==> apiKeys == []
    ensures r.0.Some? ==> r.0.value == apiKeys[index] && r.1 == (index + 1) % |apiKeys|
    ensures r.0.None? ==> r.1 == index
  {
    if apiKeys == [] then (None, index)
    else (Some(apiKeys[index]), (index + 1) % |apiKeys|)
  }

  /** `calls` successive calls from cursor `index`: the keys handed out, in order,
      and the final cursor. */
  function Run(apiKeys: seq<string>, index: nat, calls: nat): (r: (seq<Option<string>>, nat))
    requires CursorInRange(apiKeys, index)
    ensures |r.0| == calls && CursorInRange(apiKeys, r.1)
  {
    if calls == 0 then ([], index)
    else
      var (handed, cursor) := Run(apiKeys, index, calls - 1);
      var (key, next) := Acquire(apiKeys, cursor);
      (handed + [key], next)
  }

  lemma ModSucc(a: nat, n: nat)
    requires n > 0
    ensures (a % n + 1) % n == (a + 1) % n
  {
    var q, r := a / n, a % n;
    assert a == q * n + r;
    if r + 1 < n {
      DivModUnique(r + 1, n, 0, r + 1);
      DivModUnique(a + 1, n, q, r + 1);
    } else {
      DivModUnique(r + 1, n, 1, 0);
      assert a + 1 == (q + 1) * n + 0;
      DivModUnique(a + 1, n, q + 1, 0);
    }
  }

  /** After `calls` calls the cursor is at `(index + calls) mod n`. */
  lemma {:induction false} RunCursor(apiKeys: seq<string>, index: nat, calls: nat)
    requires apiKeys != [] && index < |apiKeys|
    ensures Run(apiKeys, index, calls).1 == (index + calls) % |apiKeys|
  {
    if calls == 0 {
      DivModUnique(index, |apiKeys|, 0, index);
    } else {
      RunCursor(apiKeys, index, calls - 1);
      RunLast(apiKeys, index, calls);
      CursorStep(Run(apiKeys, index, calls - 1).1, index + (calls - 1), |apiKeys|);
    }
  }

  lemma CursorStep(c: nat, a: nat, n: nat)
    requires n > 0 && c == a % n
    ensures (c + 1) % n == (a + 1) % n
  {
    ModSucc(a, n);
  }

  /** The i-th call (counting from 0) hands out `apiKeys[(index + i) mod n]`,
      and the cursor ends at `(index + calls) mod n`. */
  lemma {:induction false} RunRotates(apiKeys: seq<string>, index: nat, calls: nat)
    requires apiKeys != [] && index < |apiKeys|
    ensures Run(apiKeys, index, calls).1 == (index + calls) % |apiKeys|
    ensures forall i | 0 <= i < calls ::
              Run(apiKeys, index, calls).0[i] == Some(apiKeys[(index + i) % |apiKeys|])
  {
    RunCursor(apiKeys, index, calls);
    if calls > 0 {
      var n := |apiKeys|;
      RunRotates(apiKeys, index, calls - 1);
      var prev := Run(apiKeys, index, calls - 1);
      RunLast(apiKeys, index, calls);
      var all := Run(apiKeys, index, calls).0;
      assert all[calls - 1] == Some(apiKeys[prev.1]);
      forall i | 0 <= i < calls - 1
        ensures all[i] == Some(apiKeys[(index + i) % n])
      {
        assert all[i] == prev.0[i];
      }
    }
  }

  lemma RunLast(apiKeys: seq<string>, index: nat, calls: nat)
    requires CursorInRange(apiKeys, index) && calls > 0
    ensures var prev := Run(apiKeys, index, calls - 1);
            var step := Acquire(apiKeys, prev.1);
            Run(apiKeys, index, calls) == (prev.0 + [step.0], step.1)
  {
  }

  /** A non-empty pool never refuses, and after one call per key the cursor is
      back where it started. */
  lemma {:induction false} FullCycleReturns(apiKeys: seq<string>, index: nat)
    requires apiKeys != [] && index < |apiKeys|
    ensures Run(apiKeys, index, |apiKeys|).1 == index
    ensures forall i | 0 <= i < |apiKeys| :: Run(apiKeys, index, |apiKeys|).0[i].Some?
  {
    RunRotates(apiKeys, index, |apiKeys|);
    DivModUnique(index + |apiKeys|, |apiKeys|, 1, index);
  }

  class APIKeyPool {
    const apiKeys: seq<string>
    var currentIndex: nat

    ghost predicate Valid()
      reads this
    {
      CursorInRange(apiKeys, currentIndex)
    }

    constructor (apiKeys: seq<string>)
      ensures Valid() && this.apiKeys == apiKeys && currentIndex == 0
    {
      this.apiKeys := apiKeys;
      currentIndex := 0;
    }

    method GetAvailableKey() returns (key: Option<string>)
      requires Valid()
      modifies this`currentIndex
      ensures Valid()
      ensures (key, currentIndex) == Acquire(apiKeys, old(currentIndex))
    {
      if apiKeys == [] {
        return None;
      }
      key := Some(apiKeys[currentIndex]);
      currentIndex := (currentIndex + 1) % |apiKeys|;
    }

    /** The number of configured keys. */
    method GetAvailableKeyCount() returns (count: nat)
      ensures count == |apiKeys|
    {
      count := |apiKeys|;
    }
  }
}
