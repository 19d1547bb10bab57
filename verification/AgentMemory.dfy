/** The in-memory memory provider: the token-budget window over a run's messages, and saving. */
module AgentMemory {
  import opened Wrappers

  /** A chat message; a missing content counts as the empty text. */
  datatype Message = Message(role: string, content: string)

  /** `len(str(content)) // 4 + 1`. */
  function Estimate(m: Message): nat {
    |m.content| / 4 + 1
  }

  /** A token for every full four characters, and one more. */
  lemma EstimateExactly(m: Message)
    ensures 4 * (Estimate(m) - 1) <= |m.content| < 4 * Estimate(m)
  {
  }

  /** The cost of messages is the sum of their estimates. */
  lemma {:induction false} CostAdds(a: seq<Message>, b: seq<Message>)
    ensures Cost(a + b) == Cost(a) + Cost(b)
    ensures |a| == 1 ==> Cost(a) == Estimate(a[0])
  {
    if a == [] {
      assert a + b == b;
    } else {
      CostAdds(a[1..], b);
      assert (a + b)[1..] == a[1..] + b;
    }
  }

  function Cost(ms: seq<Message>): nat {
    if ms == [] then 0 else Estimate(ms[0]) + Cost(ms[1..])
  }

  /**
   * `w` is the window of `ms` for a budget: a suffix that fits, while the suffix with one message
   * more does not.
   */
  ghost predicate IsWindow(ms: seq<Message>, budget: nat, w: seq<Message>) {
    && |w| <= |ms|
    && w == ms[|ms| - |w|..]
    && Cost(w) <= budget
    && (|w| < |ms| ==> Cost(ms[|ms| - |w| - 1..]) > budget)
  }

  lemma {:induction false} CostGrows(ms: seq<Message>, i: nat, j: nat)
    requires i <= j <= |ms|
    ensures Cost(ms[j..]) + (j - i) <= Cost(ms[i..])
    decreases j - i
  {
    if i < j {
      CostGrows(ms, i + 1, j);
      assert ms[i..][1..] == ms[i + 1..];
    }
  }

  /** No longer suffix fits the budget. */
  lemma WindowIsLongest(ms: seq<Message>, budget: nat, w: seq<Message>, k: nat)
    requires IsWindow(ms, budget, w) && k <= |ms|
    ensures Cost(ms[k..]) <= budget <==> |ms| - k <= |w|
  {
    var n := |ms| - |w|;
    if k < n {
      CostGrows(ms, k, n - 1);
    } else {
      CostGrows(ms, n, k);
    }
  }

  /** There is one window for a budget, and it holds at most as many messages as tokens. */
  lemma WindowUnique(ms: seq<Message>, budget: nat, v: seq<Message>, w: seq<Message>)
    requires IsWindow(ms, budget, v) && IsWindow(ms, budget, w)
    ensures v == w && |w| <= budget
  {
    var n := |ms|;
    assert |w| <= |v| by {
      WindowIsLongest(ms, budget, v, n - |w|);
    }
    assert |v| <= |w| by {
      WindowIsLongest(ms, budget, w, n - |v|);
    }
    assert |w| <= Cost(w) by {
      CostGrows(ms, n - |w|, n);
      hide Cost;
    }
  }

  /** A larger budget gives a window that ends in the smaller budget's window. */
  lemma WindowMonotone(ms: seq<Message>, small: nat, large: nat, v: seq<Message>, w: seq<Message>)
    requires small <= large && IsWindow(ms, small, v) && IsWindow(ms, large, w)
    ensures |v| <= |w| && v == w[|w| - |v|..]
  {
    WindowIsLongest(ms, large, w, |ms| - |v|);
  }

  class InMemoryMemoryProvider {
    /** Each run's messages, oldest first. */
    var store: map<string, seq<Message>>

    constructor ()
      ensures store == map[]
    {
      store := map[];
    }

    function Stored(runId: string): seq<Message>
      reads this
    {
      if runId in store then store[runId] else []
    }

    /** All messages of the run, or the window for a positive budget. */
    method GetContext(runId: string, maxTokens: Option<int>) returns (result: seq<Message>)
      ensures maxTokens.Some? && maxTokens.value > 0 ==> IsWindow(Stored(runId), maxTokens.value, result)
      ensures maxTokens.None? || maxTokens.value <= 0 ==> result == if runId in store then store[runId] else []
    {
      var messages := Stored(runId);
      if maxTokens.Some? && maxTokens.value > 0 {
        result := [];
        var tokenCount := 0;
        var left := |messages|;
        while left > 0
          invariant 0 <= left <= |messages| && result == messages[left..]
          invariant tokenCount == Cost(result) <= maxTokens.value
        {
          var msg := messages[left - 1];
          var estimatedTokens := Estimate(msg);
          assert messages[left - 1..] == [msg] + messages[left..];
          if tokenCount + estimatedTokens > maxTokens.value {
            break;
          }
          result := [msg] + result;
          tokenCount := tokenCount + estimatedTokens;
          left := left - 1;
        }
        return result;
      }
      return messages;
    }

    method SaveTurn(messages: seq<Message>, runId: string)
      modifies this
      ensures store == old(store)[runId := (if runId in old(store) then old(store)[runId] else []) + messages]
    {
      if runId !in store {
        store := store[runId := []];
      }
      store := store[runId := store[runId] + messages];
    }
  }
}
