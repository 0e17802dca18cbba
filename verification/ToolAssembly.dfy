/** Putting fragmented tool calls together: each delta of the upstream stream adds
    to the call with its index. */
module ToolAssembly {

  datatype Call = Call(id: string, name: string, arguments: string)

  /** An absent field of a delta is the empty string. */
  datatype TcDelta = TcDelta(index: nat, id: string, name: string, arguments: string)

  const BLANK := Call("", "", "")

  function Padded(calls: seq<Call>, n: nat): (r: seq<Call>)
    ensures |r| == if |calls| < n then n else |calls|
    ensures forall i :: 0 <= i < |r| ==> r[i] == if i < |calls| then calls[i] else BLANK
  {
    calls + seq(if |calls| < n then n - |calls| else 0, _ => BLANK)
  }

  function Merge(call: Call, d: TcDelta): Call {
    Call(if d.id != "" then d.id else call.id, call.name + d.name, call.arguments + d.arguments)
  }

  function AddDelta(calls: seq<Call>, d: TcDelta): seq<Call> {
    var wide := Padded(calls, d.index + 1);
    wide[d.index := Merge(wide[d.index], d)]
  }

  function Assemble(deltas: seq<TcDelta>): seq<Call> {
    if deltas == [] then []
    else AddDelta(Assemble(deltas[..|deltas| - 1]), deltas[|deltas| - 1])
  }

  /** The loop over the `tool_calls` of one chunk, after those of earlier chunks. */
  method Collect(calls: seq<Call>, deltas: seq<TcDelta>, ghost before: seq<TcDelta>)
    returns (collected: seq<Call>)
    requires calls == Assemble(before)
    ensures collected == Assemble(before + deltas)
  {
    hide Assemble, Merge;
    collected := calls;
    assert before + deltas[..0] == before;
    for i := 0 to |deltas|
      invariant collected == Assemble(before + deltas[..i])
    {
      var d := deltas[i];
      AssembleSnoc(before + deltas[..i], d);
      assert before + deltas[..i + 1] == before + deltas[..i] + [d];
      collected := Grow(collected, d.index);
      var tc := collected[d.index];
      ghost var blank := tc;
      if d.id != "" {
        tc := tc.(id := d.id);
      }
      if d.name != "" {
        tc := tc.(name := tc.name + d.name);
      }
      if d.arguments != "" {
        tc := tc.(arguments := tc.arguments + d.arguments);
      }
      assert tc == Merge(blank, d) by { MergeByField(blank, d); }
      collected := collected[d.index := tc];
    }
    assert deltas[..|deltas|] == deltas;
  }

  /** Blank calls are appended until the index exists. */
  method Grow(calls: seq<Call>, index: nat) returns (grown: seq<Call>)
    ensures grown == Padded(calls, index + 1)
  {
    grown := calls;
    while |grown| <= index
      invariant |calls| <= |grown| <= if |calls| <= index then index + 1 else |calls|
      invariant forall i :: 0 <= i < |grown| ==> grown[i] == if i < |calls| then calls[i] else BLANK
    {
      grown := grown + [BLANK];
    }
  }

  lemma MergeByField(call: Call, d: TcDelta)
    ensures Merge(call, d) == Call(if d.id != "" then d.id else call.id,
                                   if d.name != "" then call.name + d.name else call.name,
                                   if d.arguments != "" then call.arguments + d.arguments else call.arguments)
  {
    assert call.name + "" == call.name && call.arguments + "" == call.arguments;
  }

  lemma AssembleSnoc(deltas: seq<TcDelta>, d: TcDelta)
    ensures Assemble(deltas + [d]) == AddDelta(Assemble(deltas), d)
  {
    assert (deltas + [d])[..|deltas|] == deltas;
  }

  lemma OneDelta(id: string, name: string, arguments: string)
    ensures Assemble([TcDelta(0, id, name, arguments)]) == [Call(id, name, arguments)]
  {
    var d := TcDelta(0, id, name, arguments);
    AssembleSnoc([], d);
    assert [] + [d] == [d];
    assert Padded([], 1) == [BLANK];
    assert "" + name == name && "" + arguments == arguments;
    assert AddDelta([], d) == [Merge(BLANK, d)];
  }

  // ---- Only the order within one index matters --------------------------------------

  function OfIndex(deltas: seq<TcDelta>, i: nat): seq<TcDelta> {
    if deltas == [] then []
    else if deltas[|deltas| - 1].index == i then OfIndex(deltas[..|deltas| - 1], i) + [deltas[|deltas| - 1]]
    else OfIndex(deltas[..|deltas| - 1], i)
  }

  function Names(deltas: seq<TcDelta>): string {
    if deltas == [] then "" else Names(deltas[..|deltas| - 1]) + deltas[|deltas| - 1].name
  }

  function Arguments(deltas: seq<TcDelta>): string {
    if deltas == [] then "" else Arguments(deltas[..|deltas| - 1]) + deltas[|deltas| - 1].arguments
  }

  function LastId(deltas: seq<TcDelta>): string {
    if deltas == [] then ""
    else if deltas[|deltas| - 1].id != "" then deltas[|deltas| - 1].id
    else LastId(deltas[..|deltas| - 1])
  }

  /** One plus the largest index. */
  function Width(deltas: seq<TcDelta>): nat {
    if deltas == [] then 0
    else
      var before := Width(deltas[..|deltas| - 1]);
      if deltas[|deltas| - 1].index < before then before else deltas[|deltas| - 1].index + 1
  }

  /** Call `i` is made of the fragments with index `i`, in order: its name and its
      arguments are their concatenations, its id the last non-empty one. */
  lemma {:induction false} AssembledFromOwnFragments(deltas: seq<TcDelta>)
    ensures |Assemble(deltas)| == Width(deltas)
    ensures forall i :: 0 <= i < Width(deltas) ==>
              Assemble(deltas)[i] == Call(LastId(OfIndex(deltas, i)), Names(OfIndex(deltas, i)),
                                          Arguments(OfIndex(deltas, i)))
    ensures forall i :: i >= Width(deltas) ==> OfIndex(deltas, i) == []
  {
    if deltas != [] {
      var n := |deltas| - 1;
      var before, d := deltas[..n], deltas[n];
      AssembledFromOwnFragments(before);
      forall i: nat
        ensures i != d.index ==> OfIndex(deltas, i) == OfIndex(before, i)
        ensures i == d.index ==> OfIndex(deltas, i) == OfIndex(before, i) + [d]
      {
      }
      var own := OfIndex(deltas, d.index);
      assert own[..|own| - 1] == OfIndex(before, d.index);
      assert "" + d.name == d.name && "" + d.arguments == d.arguments;
    }
  }

  lemma {:induction false} WidthFromFragments(deltas: seq<TcDelta>)
    ensures Width(deltas) > 0 ==> OfIndex(deltas, Width(deltas) - 1) != []
  {
    if deltas != [] {
      WidthFromFragments(deltas[..|deltas| - 1]);
    }
  }

  lemma WidthAtMost(a: seq<TcDelta>, b: seq<TcDelta>)
    requires forall i: nat :: OfIndex(a, i) == OfIndex(b, i)
    ensures Width(a) <= Width(b)
  {
    AssembledFromOwnFragments(b);
    WidthFromFragments(a);
    if Width(a) > 0 {
      assert OfIndex(b, Width(a) - 1) != [];
    }
  }

  /** Interleaving is irrelevant: streams with the same fragments per index give the
      same calls. */
  lemma InterleavingIsIrrelevant(a: seq<TcDelta>, b: seq<TcDelta>)
    requires forall i: nat :: OfIndex(a, i) == OfIndex(b, i)
    ensures Assemble(a) == Assemble(b)
  {
    hide Assemble, OfIndex, Width;
    AssembledFromOwnFragments(a);
    AssembledFromOwnFragments(b);
    WidthAtMost(a, b);
    WidthAtMost(b, a);
  }
}
