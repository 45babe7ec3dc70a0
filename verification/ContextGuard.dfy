// Keeping a conversation within the context of a model (mcp/context_guard.go) and laying it out
// on the wire (mcp/hooks.go).
module ContextGuard {

  datatype Option<T> = None | Some(value: T)

  datatype Call = Call(id: string, kind: string, name: string, arguments: string)

  datatype Message = Message(role: string, content: string, reasoning: string, calls: seq<Call>, callId: string)

  // ---------- token estimates ----------

  // The length in bytes of UTF-8.
  function Bytes(s: string): nat {
    if s == "" then 0
    else
      var c := s[0];
      (if c < '\U{80}' then 1 else if c < '\U{800}' then 2 else if c < '\U{10000}' then 3 else 4) + Bytes(s[1..])
  }

  function CallTokens(calls: seq<Call>): nat {
    if calls == [] then 0
    else
      var last := calls[|calls| - 1];
      CallTokens(calls[..|calls| - 1]) + Bytes(last.name) / 4 + Bytes(last.arguments) / 4 + 4
  }

  function Estimate(m: Message): (n: nat)
    ensures n >= 6
  {
    Bytes(m.content) / 4 + Bytes(m.reasoning) / 4 + CallTokens(m.calls) + Bytes(m.callId) / 4 + 6
  }

  // What a conversation costs, whatever the estimate per message.
  type Cost = Message -> nat

  function Total(msgs: seq<Message>, cost: Cost): nat {
    if msgs == [] then 0 else cost(msgs[0]) + Total(msgs[1..], cost)
  }

  lemma {:induction false} TotalSnoc(msgs: seq<Message>, m: Message, cost: Cost)
    ensures Total(msgs + [m], cost) == Total(msgs, cost) + cost(m)
  {
    if msgs != [] {
      TotalSnoc(msgs[1..], m, cost);
      assert (msgs + [m])[1..] == msgs[1..] + [m];
    }
  }

  method EstimateTokens(m: Message) returns (n: int)
    ensures n == Estimate(m)
  {
    n := Bytes(m.content) / 4 + Bytes(m.reasoning) / 4;
    for i := 0 to |m.calls|
      invariant n == Bytes(m.content) / 4 + Bytes(m.reasoning) / 4 + CallTokens(m.calls[..i])
    {
      assert m.calls[..i + 1][..i] == m.calls[..i];
      n := n + Bytes(m.calls[i].name) / 4 + Bytes(m.calls[i].arguments) / 4 + 4;
    }
    assert m.calls[..|m.calls|] == m.calls;
    n := n + Bytes(m.callId) / 4 + 6;
    if n < 1 {
      n := 1;
    }
  }

  method TotalTokens(msgs: seq<Message>) returns (total: int)
    ensures total == Total(msgs, Estimate)
  {
    total := 0;
    for i := 0 to |msgs|
      invariant total == Total(msgs[..i], Estimate)
    {
      var n := EstimateTokens(msgs[i]);
      assert msgs[..i + 1] == msgs[..i] + [msgs[i]];
      TotalSnoc(msgs[..i], msgs[i], Estimate);
      total := total + n;
    }
    assert msgs[..|msgs|] == msgs;
  }

  // ---------- system messages and the others ----------

  predicate IsSystem(m: Message) { m.role == "system" }

  /** The system messages, or the others, in order. */
  function Part(msgs: seq<Message>, system: bool): seq<Message> {
    if msgs == [] then []
    else
      var last := msgs[|msgs| - 1];
      Part(msgs[..|msgs| - 1], system) + if IsSystem(last) == system then [last] else []
  }

  function Hoist(msgs: seq<Message>): seq<Message> { Part(msgs, true) + Part(msgs, false) }

  method Partition(msgs: seq<Message>) returns (system: seq<Message>, others: seq<Message>)
    ensures system == Part(msgs, true) && others == Part(msgs, false)
  {
    system, others := [], [];
    for i := 0 to |msgs|
      invariant system == Part(msgs[..i], true) && others == Part(msgs[..i], false)
    {
      assert msgs[..i + 1][..i] == msgs[..i];
      if msgs[i].role == "system" {
        system := system + [msgs[i]];
      } else {
        others := others + [msgs[i]];
      }
    }
    assert msgs[..|msgs|] == msgs;
  }

  lemma {:induction false} PartAppend(xs: seq<Message>, ys: seq<Message>, system: bool)
    ensures Part(xs + ys, system) == Part(xs, system) + Part(ys, system)
  {
    if ys == [] {
      assert xs + ys == xs;
    } else {
      PartAppend(xs, ys[..|ys| - 1], system);
      assert (xs + ys)[..|xs + ys| - 1] == xs + ys[..|ys| - 1];
    }
  }

  // Every message is of the one kind.
  predicate Only(msgs: seq<Message>, system: bool) { forall m :: m in msgs ==> IsSystem(m) == system }

  lemma {:induction false} PartIsOnly(msgs: seq<Message>, system: bool)
    ensures Only(Part(msgs, system), system)
  {
    if msgs != [] {
      PartIsOnly(msgs[..|msgs| - 1], system);
    }
  }

  lemma {:induction false} PartOfOnly(msgs: seq<Message>, system: bool)
    requires Only(msgs, system)
    ensures Part(msgs, system) == msgs && Part(msgs, !system) == []
  {
    if msgs != [] {
      PartOfOnly(msgs[..|msgs| - 1], system);
      assert msgs == msgs[..|msgs| - 1] + [msgs[|msgs| - 1]];
    }
  }

  /** Laying out any system messages before any others and taking the two parts again. */
  lemma PartsOfSplit(system: seq<Message>, others: seq<Message>)
    requires Only(system, true) && Only(others, false)
    ensures Part(system + others, true) == system && Part(system + others, false) == others
    ensures Hoist(system + others) == system + others
  {
    PartOfOnly(system, true);
    PartOfOnly(others, false);
    PartAppend(system, others, true);
    PartAppend(system, others, false);
  }

  /** One part has the messages of role "system", the other those of any other role. */
  lemma {:induction false} PartsByRole(msgs: seq<Message>)
    ensures forall m :: m in Part(msgs, true) <==> m in msgs && m.role == "system"
    ensures forall m :: m in Part(msgs, false) <==> m in msgs && m.role != "system"
  {
    if msgs != [] {
      var front, last := msgs[..|msgs| - 1], msgs[|msgs| - 1];
      PartsByRole(front);
      assert msgs == front + [last];
    }
  }

  /** Hoisting is the stable partition: it keeps both parts in order and every message, and
      hoisting again changes nothing. */
  lemma HoistIsStablePartition(msgs: seq<Message>)
    ensures Part(Hoist(msgs), true) == Part(msgs, true) && Part(Hoist(msgs), false) == Part(msgs, false)
    ensures multiset(Hoist(msgs)) == multiset(msgs) && Hoist(Hoist(msgs)) == Hoist(msgs)
  {
    PartIsOnly(msgs, true);
    PartIsOnly(msgs, false);
    PartsOfSplit(Part(msgs, true), Part(msgs, false));
    HoistKeepsAll(msgs);
  }

  /** No other layout with the system messages in front keeps both parts in order. */
  lemma HoistIsUnique(msgs: seq<Message>, system: seq<Message>, others: seq<Message>)
    requires Only(system, true) && Only(others, false)
    requires Part(system + others, true) == Part(msgs, true) && Part(system + others, false) == Part(msgs, false)
    ensures system + others == Hoist(msgs)
  {
    PartsOfSplit(system, others);
  }

  lemma {:induction false} HoistKeepsAll(msgs: seq<Message>)
    ensures multiset(Part(msgs, true)) + multiset(Part(msgs, false)) == multiset(msgs)
  {
    if msgs != [] {
      HoistKeepsAll(msgs[..|msgs| - 1]);
      assert msgs == msgs[..|msgs| - 1] + [msgs[|msgs| - 1]];
    }
  }

  // ---------- truncation ----------

  // Drop the oldest messages until the rest fits, but never the newest.
  function DropOldest(others: seq<Message>, spent: nat, maxContext: int, cost: Cost): seq<Message> {
    if |others| > 1 && spent + Total(others, cost) > maxContext then
      DropOldest(others[1..], spent, maxContext, cost)
    else others
  }

  predicate Fits(msgs: seq<Message>, maxContext: int, cost: Cost) {
    maxContext <= 0 || Total(Part(msgs, true), cost) + Total(Part(msgs, false), cost) <= maxContext
  }

  function Cut(system: seq<Message>, others: seq<Message>, maxContext: int, cost: Cost): seq<Message> {
    system + DropOldest(others, Total(system, cost), maxContext, cost)
  }

  function Truncate(msgs: seq<Message>, maxContext: int, cost: Cost): seq<Message> {
    if Fits(msgs, maxContext, cost) then msgs else Cut(Part(msgs, true), Part(msgs, false), maxContext, cost)
  }

  method TruncateToMaxContext(msgs: seq<Message>, maxContext: int) returns (r: seq<Message>)
    ensures r == Truncate(msgs, maxContext, Estimate)
  {
    if maxContext <= 0 || |msgs| == 0 {
      return msgs;
    }
    var system, others := Partition(msgs);
    var total := TotalTokens(system);
    var more := TotalTokens(others);
    total := total + more;
    if total <= maxContext {
      return msgs;
    }
    ghost var all := others;
    while |others| > 1 && total > maxContext
      invariant total == Total(system, Estimate) + Total(others, Estimate)
      invariant DropOldest(others, Total(system, Estimate), maxContext, Estimate)
        == DropOldest(all, Total(system, Estimate), maxContext, Estimate)
      decreases |others|
    {
      var n := EstimateTokens(others[0]);
      total := total - n;
      others := others[1..];
    }
    assert others == DropOldest(all, Total(system, Estimate), maxContext, Estimate);
    r := system + others;
  }

  // The last n messages.
  function Newest(msgs: seq<Message>, n: nat): seq<Message>
    requires n <= |msgs|
  {
    msgs[|msgs| - n..]
  }

  // `kept` is the longest suffix of `others` that fits, or the newest alone.
  ghost predicate LongestFitting(kept: seq<Message>, others: seq<Message>, spent: nat, maxContext: int, cost: Cost) {
    && |kept| <= |others| && kept == Newest(others, |kept|) && (others != [] ==> kept != [])
    && (|kept| > 1 ==> spent + Total(kept, cost) <= maxContext)
    && forall n :: |kept| < n <= |others| ==> spent + Total(Newest(others, n), cost) > maxContext
  }

  /** What is kept of the others is their longest suffix that fits, or the newest message alone if
      not even that fits. */
  lemma {:induction false} DropOldestIs(others: seq<Message>, spent: nat, maxContext: int, cost: Cost)
    ensures LongestFitting(DropOldest(others, spent, maxContext, cost), others, spent, maxContext, cost)
  {
    if |others| > 1 && spent + Total(others, cost) > maxContext {
      DropOldestIs(others[1..], spent, maxContext, cost);
      var r := DropOldest(others, spent, maxContext, cost);
      forall n | |r| < n <= |others|
        ensures spent + Total(Newest(others, n), cost) > maxContext
      {
        if n < |others| {
          assert Newest(others, n) == Newest(others[1..], n);
        }
      }
    }
  }

  lemma CutParts(system: seq<Message>, others: seq<Message>, maxContext: int, cost: Cost)
    requires Only(system, true) && Only(others, false)
    ensures var r := Cut(system, others, maxContext, cost);
      && Part(r, true) == system && Hoist(r) == r
      && Part(r, false) == DropOldest(others, Total(system, cost), maxContext, cost)
  {
    var kept := DropOldest(others, Total(system, cost), maxContext, cost);
    DropOldestIs(others, Total(system, cost), maxContext, cost);
    assert Only(kept, false);
    PartsOfSplit(system, kept);
  }

  lemma TruncateParts(msgs: seq<Message>, maxContext: int, cost: Cost)
    requires !Fits(msgs, maxContext, cost)
    ensures Part(Truncate(msgs, maxContext, cost), true) == Part(msgs, true)
    ensures Part(Truncate(msgs, maxContext, cost), false)
      == DropOldest(Part(msgs, false), Total(Part(msgs, true), cost), maxContext, cost)
    ensures Hoist(Truncate(msgs, maxContext, cost)) == Truncate(msgs, maxContext, cost)
  {
    PartIsOnly(msgs, true);
    PartIsOnly(msgs, false);
    CutParts(Part(msgs, true), Part(msgs, false), maxContext, cost);
  }

  /** Over budget, the result is all system messages in order, followed by the longest suffix of
      the others that fits beside them, or by the newest alone; within budget nothing changes. */
  lemma TruncateIs(msgs: seq<Message>, maxContext: int, cost: Cost)
    requires maxContext > 0
    ensures var r := Truncate(msgs, maxContext, cost);
      && Part(r, true) == Part(msgs, true)
      && LongestFitting(Part(r, false), Part(msgs, false), Total(Part(msgs, true), cost), maxContext, cost)
      && if Fits(msgs, maxContext, cost) then r == msgs else r == Hoist(r)
  {
    DropOldestIs(Part(msgs, false), Total(Part(msgs, true), cost), maxContext, cost);
    if !Fits(msgs, maxContext, cost) {
      TruncateParts(msgs, maxContext, cost);
    }
  }

  lemma {:induction false} TotalOfParts(msgs: seq<Message>, cost: Cost)
    ensures Total(Part(msgs, true), cost) + Total(Part(msgs, false), cost) == Total(msgs, cost)
  {
    if msgs != [] {
      var front, last := msgs[..|msgs| - 1], msgs[|msgs| - 1];
      TotalOfParts(front, cost);
      TotalSnoc(front, last, cost);
      TotalSnoc(Part(front, IsSystem(last)), last, cost);
      assert msgs == front + [last];
      assert Part(msgs, !IsSystem(last)) == Part(front, !IsSystem(last));
    }
  }

  /** Nothing changes without a budget, or if the messages together are within it; over budget at
      most the newest of the other messages is left, or what is left is within it. */
  lemma BudgetIsKept(msgs: seq<Message>, maxContext: int, cost: Cost)
    ensures var r := Truncate(msgs, maxContext, cost);
      && (maxContext <= 0 || Total(msgs, cost) <= maxContext ==> r == msgs)
      && (maxContext > 0 ==> Total(r, cost) <= maxContext || |Part(r, false)| <= 1)
  {
    TotalOfParts(msgs, cost);
    if maxContext > 0 {
      TruncateIs(msgs, maxContext, cost);
      TotalOfParts(Truncate(msgs, maxContext, cost), cost);
    }
  }

  lemma {:induction false} DropTwice(others: seq<Message>, spent: nat, maxContext: int, cost: Cost)
    ensures var kept := DropOldest(others, spent, maxContext, cost); DropOldest(kept, spent, maxContext, cost) == kept
  {
    if |others| > 1 && spent + Total(others, cost) > maxContext {
      DropTwice(others[1..], spent, maxContext, cost);
    }
  }

  /** Truncating twice is truncating once. */
  lemma TruncateIdempotent(msgs: seq<Message>, maxContext: int, cost: Cost)
    ensures Truncate(Truncate(msgs, maxContext, cost), maxContext, cost) == Truncate(msgs, maxContext, cost)
  {
    if !Fits(msgs, maxContext, cost) {
      var r := Truncate(msgs, maxContext, cost);
      TruncateParts(msgs, maxContext, cost);
      DropTwice(Part(msgs, false), Total(Part(msgs, true), cost), maxContext, cost);
      assert Cut(Part(r, true), Part(r, false), maxContext, cost) == Hoist(r);
    }
  }

  /** A larger budget never keeps less: what a smaller one keeps is a suffix of it. */
  lemma TruncateMonotone(msgs: seq<Message>, small: int, large: int, cost: Cost)
    requires 0 < small <= large
    ensures var s, t := Part(Truncate(msgs, small, cost), false), Part(Truncate(msgs, large, cost), false);
      |s| <= |t| && s == Newest(t, |s|)
  {
    TruncateIs(msgs, small, cost);
    TruncateIs(msgs, large, cost);
    SuffixesNest(Part(Truncate(msgs, small, cost), false), Part(Truncate(msgs, large, cost), false),
                 Part(msgs, false), Total(Part(msgs, true), cost), small, large, cost);
  }

  lemma SuffixesNest(s: seq<Message>, t: seq<Message>, others: seq<Message>, spent: nat, small: int, large: int,
                     cost: Cost)
    requires small <= large
    requires LongestFitting(s, others, spent, small, cost) && LongestFitting(t, others, spent, large, cost)
    ensures |s| <= |t| && s == Newest(t, |s|)
  {
    assert Total(Newest(others, |s|), cost) == Total(s, cost);
  }

  /** Truncation and hoisting commute. */
  lemma TruncateHoistCommute(msgs: seq<Message>, maxContext: int, cost: Cost)
    ensures Hoist(Truncate(msgs, maxContext, cost)) == Truncate(Hoist(msgs), maxContext, cost)
  {
    var h := Hoist(msgs);
    assert Part(h, true) == Part(msgs, true) && Part(h, false) == Part(msgs, false) by {
      HoistIsStablePartition(msgs);
    }
    if !Fits(msgs, maxContext, cost) {
      TruncateParts(msgs, maxContext, cost);
    }
  }

  // ---------- the wire ----------

  datatype Wire = Wire(role: string, callId: Option<string>, content: Option<string>, calls: Option<seq<Call>>,
                       reasoning: Option<string>)

  function ToWire(m: Message): Wire {
    var reasoning := if m.reasoning != "" then Some(m.reasoning) else None;
    if m.role == "tool" then Wire(m.role, Some(m.callId), Some(m.content), None, reasoning)
    else if m.calls != [] then
      Wire(m.role, None, if m.content != "" then Some(m.content) else None, Some(m.calls), reasoning)
    else Wire(m.role, None, Some(m.content), None, reasoning)
  }

  function WireOf(msgs: seq<Message>): seq<Wire> {
    seq(|msgs|, i requires 0 <= i < |msgs| => ToWire(msgs[i]))
  }

  method BuildWireMessages(msgs: seq<Message>) returns (out: seq<Wire>)
    ensures out == WireOf(Hoist(msgs))
  {
    var system, rest := Partition(msgs);
    var ordered := system + rest;
    out := [];
    for k := 0 to |ordered|
      invariant out == WireOf(ordered[..k])
    {
      var m := ordered[k];
      var item := Wire(m.role, None, None, None, None);
      if m.role == "tool" {
        item := item.(callId := Some(m.callId), content := Some(m.content));
      } else if |m.calls| > 0 {
        var calls := [];
        for i := 0 to |m.calls|
          invariant calls == m.calls[..i]
        {
          assert m.calls[..i + 1] == m.calls[..i] + [m.calls[i]];
          calls := calls + [m.calls[i]];
        }
        assert calls == m.calls;
        item := item.(calls := Some(calls));
        if m.content != "" {
          item := item.(content := Some(m.content));
        }
      } else {
        item := item.(content := Some(m.content));
      }
      if m.reasoning != "" {
        item := item.(reasoning := Some(m.reasoning));
      }
      assert item == ToWire(m);
      out := out + [item];
    }
    assert ordered[..|ordered|] == ordered;
  }

  /** The wire list is the same whether the messages are hoisted before truncation or only when
      the request is built. */
  lemma SameWire(msgs: seq<Message>, maxContext: int, cost: Cost)
    ensures WireOf(Hoist(Truncate(Hoist(msgs), maxContext, cost))) == WireOf(Hoist(Truncate(msgs, maxContext, cost)))
  {
    TruncateHoistCommute(msgs, maxContext, cost);
    HoistIsStablePartition(Truncate(msgs, maxContext, cost));
  }

  // ---------- what an estimate is ----------

  // How many bits of a code point the form of n bytes holds (RFC 3629, section 3).
  function Limit(n: nat): nat {
    if n == 1 then 0x80 else if n == 2 then 0x800 else if n == 3 then 0x10000 else 0x110000
  }

  /** A character takes the least of the one- to four-byte forms that holds its code point. */
  lemma BytesOfOne(c: char)
    ensures 1 <= Bytes([c]) <= 4 && (c as int) < Limit(Bytes([c]))
    ensures Bytes([c]) > 1 ==> c as int >= Limit(Bytes([c]) - 1)
  {
    assert [c][1..] == "";
  }

  predicate Ascii(s: string) { forall i :: 0 <= i < |s| ==> (s[i] as int) < 0x80 }

  /** A text takes what its parts take; ASCII texts, and they alone, take one byte a character. */
  lemma {:induction false} BytesAre(s: string, t: string)
    ensures Bytes(s + t) == Bytes(s) + Bytes(t)
    ensures |s| <= Bytes(s) && (Bytes(s) == |s| <==> Ascii(s))
  {
    if s == "" {
      assert s + t == t;
    } else {
      BytesAre(s[1..], t);
      assert (s + t)[1..] == s[1..] + t;
      assert Ascii(s) <==> (s[0] as int) < 0x80 && Ascii(s[1..]) by {
        assert forall i :: 0 < i < |s| ==> s[i] == s[1..][i - 1];
        assert forall i :: 0 <= i < |s| - 1 ==> s[1..][i] == s[i + 1];
      }
    }
  }

  // All that is sent of the calls, and of a message, in bytes.
  function CallBytes(calls: seq<Call>): nat {
    if calls == [] then 0
    else
      CallBytes(calls[..|calls| - 1])
      + (Bytes(calls[|calls| - 1].name) + Bytes(calls[|calls| - 1].arguments))
  }

  function MessageBytes(m: Message): nat {
    Bytes(m.content) + Bytes(m.reasoning) + Bytes(m.callId) + CallBytes(m.calls)
  }

  lemma {:induction false} CallTokensBounds(calls: seq<Call>)
    ensures CallBytes(calls) - 6 * |calls| <= 4 * (CallTokens(calls) - 4 * |calls|) <= CallBytes(calls)
  {
    if calls != [] {
      CallTokensBounds(calls[..|calls| - 1]);
    }
  }

  /** Beyond six tokens a message and four a call, the estimate is one token for four bytes, short of
      it by less than one token for each of the texts. */
  lemma EstimateIsQuarter(m: Message)
    ensures MessageBytes(m) - 3 * (3 + 2 * |m.calls|) <= 4 * (Estimate(m) - 6 - 4 * |m.calls|) <= MessageBytes(m)
  {
    CallTokensBounds(m.calls);
  }

  // ---------- what survives on the wire ----------

  /** The message at each place of the request: its role always; its text unless it is empty beside
      calls that are sent; its calls exactly if it has some and is no tool result; the id of the call
      it answers exactly if it is one; its reasoning exactly if there is some. */
  lemma WireKeeps(msgs: seq<Message>, i: nat)
    requires i < |msgs|
    ensures |WireOf(msgs)| == |msgs|
    ensures var m, w := msgs[i], WireOf(msgs)[i];
      && w.role == m.role
      && (w.content == Some(m.content) || (w.content == None && m.content == ""))
      && (w.content == None <==> m.content == "" && w.calls.Some?)
      && (w.calls.Some? <==> m.role != "tool" && m.calls != []) && (w.calls.Some? ==> w.calls.value == m.calls)
      && (w.callId.Some? <==> m.role == "tool") && (w.callId.Some? ==> w.callId.value == m.callId)
      && (w.reasoning == None <==> m.reasoning == "") && (w.reasoning.Some? ==> w.reasoning.value == m.reasoning)
  {
  }
}
