/**
 The system-audio pipeline: captured packets are queued, cut into source blocks,
 converted (by a foreign library: any bytes, or a failure) and cut into output packets.
 */
module SystemAudio {
  import opened Bytes
  import opened Wrappers
  import ChunkQueue
  import ThreadQueue

  // Sizes of a source block and of an output packet.
  datatype Sizes = Sizes(src: nat, dst: nat)

  type BlockSizes = z: Sizes | 0 < z.src && 0 < z.dst witness Sizes(4096, 4096)

  // The worker's two byte queues, and what went through them.
  datatype Pipe = Pipe(
    src: seq<byte>,
    dst: seq<byte>,
    accepted: seq<seq<byte>>,      // packets taken from queue_in_
    blocks: seq<seq<byte>>,        // blocks given to the resampler
    conversions: seq<seq<byte>>,   // what successful conversions produced
    emitted: seq<seq<byte>>)       // packets put in queue_out_

  const EMPTY_PIPE := Pipe([], [], [], [], [], [])

  // One write to a byte queue, then at most one read of n bytes.
  function CutOne(n: nat, queue: seq<byte>, input: seq<byte>): (Option<seq<byte>>, seq<byte>) {
    var all := queue + input;
    if |all| < n then (None, all) else (Some(all[..n]), all[n..])
  }

  // AudioResampling::execute on one block; None when closed or failing.
  function Convert(z: BlockSizes, p: Pipe, conversion: Option<seq<byte>>): Pipe {
    if conversion.None? then p
    else
      var (packet, dst) := CutOne(z.dst, p.dst, conversion.value);
      p.(dst := dst, conversions := p.conversions + [conversion.value], emitted := p.emitted + ToSeq(packet))
  }

  // The worker on one packet: at most one block, so at most one output packet.
  function Accept(z: BlockSizes, p: Pipe, packet: seq<byte>, conversion: Option<seq<byte>>): Pipe {
    var (block, src) := CutOne(z.src, p.src, packet);
    var p := p.(src := src, accepted := p.accepted + [packet], blocks := p.blocks + ToSeq(block));
    if block.None? then p else Convert(z, p, conversion)
  }

  predicate AllAtMost(chunks: seq<seq<byte>>, n: nat) {
    chunks == [] || (AllAtMost(chunks[..|chunks| - 1], n) && |chunks[|chunks| - 1]| <= n)
  }

  predicate AllOfSize(chunks: seq<seq<byte>>, n: nat) { forall c :: c in chunks ==> |c| == n }

  // A stage that writes each input to a byte queue and reads at most one n-byte output.
  predicate StageKept(n: nat, inputs: seq<seq<byte>>, outputs: seq<seq<byte>>, queue: seq<byte>) {
    && Flatten(outputs) + queue == Flatten(inputs)
    && AllOfSize(outputs, n)
    && |outputs| <= |inputs|
    && (AllAtMost(inputs, n) ==> |queue| < n)
  }

  predicate Kept(z: BlockSizes, p: Pipe) {
    && StageKept(z.src, p.accepted, p.blocks, p.src)
    && StageKept(z.dst, p.conversions, p.emitted, p.dst)
    && |p.conversions| <= |p.blocks|
  }

  lemma StageKeeps(n: nat, inputs: seq<seq<byte>>, outputs: seq<seq<byte>>, queue: seq<byte>, input: seq<byte>)
    requires StageKept(n, inputs, outputs, queue)
    ensures var (output, rest) := CutOne(n, queue, input);
      StageKept(n, inputs + [input], outputs + ToSeq(output), rest)
  {
    var all := queue + input;
    FlattenAppend(inputs, input);
    assert (inputs + [input])[..|inputs|] == inputs;
    Assoc(Flatten(outputs), queue, input);
    if |all| < n {
      assert outputs + [] == outputs;
    } else {
      OneOutputMore(n, outputs, all);
    }
  }

  lemma OneOutputMore(n: nat, outputs: seq<seq<byte>>, all: seq<byte>)
    requires n <= |all| && AllOfSize(outputs, n)
    ensures AllOfSize(outputs + [all[..n]], n)
    ensures Flatten(outputs + [all[..n]]) + all[n..] == Flatten(outputs) + all
  {
    FlattenAppend(outputs, all[..n]);
    assert all == all[..n] + all[n..];
    Assoc(Flatten(outputs), all[..n], all[n..]);
  }

  lemma AcceptKeeps(z: BlockSizes, p: Pipe, packet: seq<byte>, conversion: Option<seq<byte>>)
    requires Kept(z, p)
    ensures Kept(z, Accept(z, p, packet, conversion))
  {
    StageKeeps(z.src, p.accepted, p.blocks, p.src, packet);
    if conversion.Some? { StageKeeps(z.dst, p.conversions, p.emitted, p.dst, conversion.value); }
  }

  // ---- Capture callback, worker and consumer, in any interleaving ----

  // The callback looks at queue_out_ before it pushes, the worker works between its pop
  // and its push; others get in between.
  datatype Step =
    | Check(data: Option<seq<byte>>)
    | Keep
    | Take
    | Work(conversion: Option<seq<byte>>)
    | Fetch

  datatype State = State(
    pipe: Pipe, queueIn: seq<seq<byte>>, queueOut: seq<seq<byte>>,
    checked: Option<seq<byte>>,   // packet the callback is about to keep
    inHand: Option<seq<byte>>,    // packet the worker has popped
    kept: seq<seq<byte>>,         // packets the callback did not drop
    fetched: seq<seq<byte>>)      // packets given to the consumer

  // A step that is not enabled changes nothing.
  function Do(z: BlockSizes, s: State, step: Step): State {
    match step
    case Check(data) =>
      if s.checked.Some? || data.None? || |s.queueOut| > 2 then s else s.(checked := data)
    case Keep =>
      if s.checked.None? then s
      else s.(queueIn := s.queueIn + [s.checked.value], kept := s.kept + [s.checked.value], checked := None)
    case Take =>
      if s.inHand.Some? || s.queueIn == [] then s
      else s.(inHand := Some(s.queueIn[0]), queueIn := s.queueIn[1..])
    case Work(conversion) =>
      if s.inHand.None? then s
      else
        var pipe := Accept(z, s.pipe, s.inHand.value, conversion);
        s.(inHand := None, pipe := pipe, queueOut := s.queueOut + pipe.emitted[|s.pipe.emitted|..])
    case Fetch =>
      if s.queueOut == [] then s
      else s.(queueOut := s.queueOut[1..], fetched := s.fetched + [s.queueOut[0]])
  }

  const INITIAL := State(EMPTY_PIPE, [], [], None, None, [], [])

  function Run(z: BlockSizes, steps: seq<Step>): State {
    if steps == [] then INITIAL
    else Do(z, Run(z, steps[..|steps| - 1]), steps[|steps| - 1])
  }

  predicate QueuesKept(s: State) {
    && s.pipe.accepted + ToSeq(s.inHand) + s.queueIn == s.kept
    && s.fetched + s.queueOut == s.pipe.emitted
  }

  lemma TakeKeepsQueues(accepted: seq<seq<byte>>, queue: seq<seq<byte>>)
    requires queue != []
    ensures accepted + [] + queue == accepted + [queue[0]] + queue[1..]
  {
  }

  lemma WorkKeepsQueues(z: BlockSizes, s: State, conversion: Option<seq<byte>>)
    requires QueuesKept(s) && s.inHand.Some?
    ensures QueuesKept(Do(z, s, Work(conversion)))
  {
    var before, after := s.pipe.emitted, Accept(z, s.pipe, s.inHand.value, conversion).emitted;
    assert before + after[|before|..] == after;
    Assoc(s.fetched, s.queueOut, after[|before|..]);
    assert s.pipe.accepted + [s.inHand.value] == s.pipe.accepted + [s.inHand.value] + [];
  }

  lemma StepKeepsQueues(z: BlockSizes, s: State, step: Step)
    requires QueuesKept(s)
    ensures QueuesKept(Do(z, s, step))
  {
    match step
    case Check(_) =>
    case Keep =>
      if s.checked.Some? { Assoc(s.pipe.accepted + ToSeq(s.inHand), s.queueIn, [s.checked.value]); }
    case Take =>
      if s.queueIn != [] { TakeKeepsQueues(s.pipe.accepted, s.queueIn); }
    case Work(conversion) =>
      if s.inHand.Some? { WorkKeepsQueues(z, s, conversion); }
    case Fetch =>
      if s.queueOut != [] { TakeKeepsQueues(s.fetched, s.queueOut); }
  }

  // In every interleaving, both stages keep their bytes in order and their sizes, and no
  // packet is lost between the queues.
  lemma {:induction false} PipelineKeepsBytes(z: BlockSizes, steps: seq<Step>)
    ensures var s := Run(z, steps); Kept(z, s.pipe) && QueuesKept(s)
  {
    if steps != [] {
      var s := Run(z, steps[..|steps| - 1]);
      PipelineKeepsBytes(z, steps[..|steps| - 1]);
      StepKeepsQueues(z, s, steps[|steps| - 1]);
      match steps[|steps| - 1]
      case Work(conversion) => if s.inHand.Some? { AcceptKeeps(z, s.pipe, s.inHand.value, conversion); }
      case _ =>
    }
  }

  lemma PrefixOfEmitted(z: BlockSizes, s: State)
    requires Kept(z, s.pipe) && QueuesKept(s)
    ensures Flatten(s.fetched) <= Flatten(s.pipe.conversions) && AllOfSize(s.fetched, z.dst)
    ensures |s.fetched| + |s.queueOut| + |ToSeq(s.inHand)| + |s.queueIn| <= |s.kept|
  {
    FlattenConcat(s.fetched, s.queueOut);
    Assoc(Flatten(s.fetched), Flatten(s.queueOut), s.pipe.dst);
    assert forall c :: c in s.fetched ==> c in s.fetched + s.queueOut;
  }

  // The consumer gets fixed-size packets that form a prefix of the converted bytes, at most
  // one for each packet the callback kept.
  lemma FetchedIsPrefix(z: BlockSizes, steps: seq<Step>)
    ensures var s := Run(z, steps);
      && Flatten(s.fetched) <= Flatten(s.pipe.conversions)
      && AllOfSize(s.fetched, z.dst)
      && |s.fetched| + |s.queueOut| + |ToSeq(s.inHand)| + |s.queueIn| <= |s.kept|
  {
    PipelineKeepsBytes(z, steps);
    PrefixOfEmitted(z, Run(z, steps));
  }

  // ---- Which packets are kept and converted ----

  lemma RunNext(z: BlockSizes, steps: seq<Step>, step: Step)
    ensures Run(z, steps + [step]) == Do(z, Run(z, steps), step)
  {
    assert (steps + [step])[..|steps|] == steps;
  }

  // The packet offered at step i, if the callback is free then and there is one.
  function OfferAt(z: BlockSizes, steps: seq<Step>, i: nat): Option<seq<byte>>
    requires i < |steps|
  {
    match steps[i]
    case Check(data) => if Run(z, steps[..i]).checked.None? then data else None
    case _ => None
  }

  // Output packets waiting at step i.
  function WaitingAt(z: BlockSizes, steps: seq<Step>, i: nat): nat
    requires i < |steps|
  {
    |Run(z, steps[..i]).queueOut|
  }

  // The offers at which at most most output packets wait.
  function OffersWith(z: BlockSizes, steps: seq<Step>, most: Option<nat>): seq<seq<byte>> {
    if steps == [] then []
    else
      var n := |steps| - 1;
      OffersWith(z, steps[..n], most) +
      if most.Some? && WaitingAt(z, steps, n) > most.value then [] else ToSeq(OfferAt(z, steps, n))
  }

  lemma KeptStep(z: BlockSizes, s: State, step: Step)
    ensures var s' := Do(z, s, step);
      var offer := match step case Check(data) => if s.checked.None? then data else None case _ => None;
      s'.kept + ToSeq(s'.checked) == s.kept + ToSeq(s.checked) + if |s.queueOut| > 2 then [] else ToSeq(offer)
  {
    assert s.kept + [] == s.kept;
    if step.Keep? && s.checked.Some? { assert s.kept + [s.checked.value] + [] == s.kept + [s.checked.value]; }
  }

  // What is kept, with a packet checked and not yet pushed, are exactly the offers at which
  // at most two output packets wait, in order.
  lemma {:induction false} KeptExactly(z: BlockSizes, steps: seq<Step>)
    ensures var s := Run(z, steps); s.kept + ToSeq(s.checked) == OffersWith(z, steps, Some(2))
  {
    if steps != [] {
      var n := |steps| - 1;
      KeptExactly(z, steps[..n]);
      KeptStep(z, Run(z, steps[..n]), steps[n]);
    }
  }

  lemma {:induction false} OffersCount(z: BlockSizes, steps: seq<Step>)
    ensures var kept, all := OffersWith(z, steps, Some(2)), OffersWith(z, steps, None);
      && |kept| <= |all|
      && (|kept| == |all| ==> kept == all)
      && (|kept| == |all| <==> forall i :: 0 <= i < |steps| && OfferAt(z, steps, i).Some? ==> WaitingAt(z, steps, i) <= 2)
  {
    if steps != [] {
      var n := |steps| - 1;
      var front := steps[..n];
      OffersCount(z, front);
      assert forall i :: 0 <= i < n ==>
        OfferAt(z, steps, i) == OfferAt(z, front, i) && WaitingAt(z, steps, i) == WaitingAt(z, front, i) by {
        forall i | 0 <= i < n
          ensures OfferAt(z, steps, i) == OfferAt(z, front, i) && WaitingAt(z, steps, i) == WaitingAt(z, front, i)
        {
          assert front[..i] == steps[..i];
        }
      }
    }
  }

  // No offer is dropped exactly when no check finds more than two packets waiting.
  lemma NothingDroppedExactly(z: BlockSizes, steps: seq<Step>)
    ensures var s := Run(z, steps);
      s.kept + ToSeq(s.checked) == OffersWith(z, steps, None) <==>
      forall i :: 0 <= i < |steps| && OfferAt(z, steps, i).Some? ==> WaitingAt(z, steps, i) <= 2
  {
    KeptExactly(z, steps);
    OffersCount(z, steps);
  }

  // One output at most, as soon as there are n bytes.
  lemma CutOneExactly(n: nat, queue: seq<byte>, input: seq<byte>)
    ensures var (output, rest) := CutOne(n, queue, input);
      && (output.Some? <==> n <= |queue| + |input|)
      && (output.Some? ==> |output.value| == n && output.value + rest == queue + input)
      && (output.None? ==> rest == queue + input)
  {
  }

  // The worker's step: the packet in hand is accepted; a block is cut when the bytes are
  // there, and exactly then a conversion that does not fail is taken.
  lemma WorkTakes(z: BlockSizes, s: State, conversion: Option<seq<byte>>)
    requires s.inHand.Some?
    ensures var s' := Do(z, s, Work(conversion));
      var block := z.src <= |s.pipe.src| + |s.inHand.value|;
      && s'.inHand.None? && s'.pipe.accepted == s.pipe.accepted + [s.inHand.value]
      && |s'.pipe.blocks| == |s.pipe.blocks| + (if block then 1 else 0)
      && s'.pipe.conversions == s.pipe.conversions + (if block then ToSeq(conversion) else [])
      && |s'.queueOut| == |s.queueOut| +
           (if block && conversion.Some? && z.dst <= |s.pipe.dst| + |conversion.value| then 1 else 0)
  {
  }

  // ---- The objects ----

  // The worker on one packet in terms of the two byte queues: the output packet, and what
  // is left in them.
  function Worked(z: BlockSizes, src: seq<byte>, dst: seq<byte>, data: seq<byte>, conversion: Option<seq<byte>>)
    : (Option<seq<byte>>, seq<byte>, seq<byte>)
  {
    var (block, src') := CutOne(z.src, src, data);
    if block.None? || conversion.None? then (None, src', dst)
    else
      var (packet, dst') := CutOne(z.dst, dst, conversion.value);
      (packet, src', dst')
  }

  lemma WorkIs(z: BlockSizes, s: State, data: seq<byte>, conversion: Option<seq<byte>>)
    requires s.inHand == Some(data)
    ensures var (packet, src, dst) := Worked(z, s.pipe.src, s.pipe.dst, data, conversion);
      var s' := Do(z, s, Work(conversion));
      && s'.queueIn == s.queueIn && s'.queueOut == s.queueOut + ToSeq(packet)
      && s'.pipe.src == src && s'.pipe.dst == dst
  {
    var packet := Worked(z, s.pipe.src, s.pipe.dst, data, conversion).0;
    var pipe := Accept(z, s.pipe, data, conversion);
    assert pipe.emitted == s.pipe.emitted + ToSeq(packet);
    assert pipe.emitted[|s.pipe.emitted|..] == ToSeq(packet);
  }

  method WriteThenRead(b: ChunkQueue.MemoryBuffer, bytes: seq<byte>, n: nat) returns (r: Option<seq<byte>>)
    requires b.Valid() && 0 < n
    modifies b, b.Repr
    ensures b.Valid() && fresh(b.Repr - old(b.Repr))
    ensures (r, b.Contents()) == CutOne(n, old(b.Contents()), bytes)
  {
    var a := new byte[|bytes|](i requires 0 <= i < |bytes| => bytes[i]);
    assert a[..a.Length] == bytes;
    b.Write(a, a.Length);
    var read := b.Read(n);
    r := if read == null then None else Some(read[..]);
  }

  class AudioResampling {
    const sizes: BlockSizes
    const buffer: ChunkQueue.MemoryBuffer
    var isOpen: bool

    ghost predicate Valid()
      reads this, buffer, buffer.Repr
    {
      buffer.Valid()
    }

    constructor (sizes: BlockSizes)
      ensures Valid() && isOpen && this.sizes == sizes
      ensures fresh(buffer) && fresh(buffer.Repr) && buffer.Contents() == []
    {
      this.sizes := sizes;
      buffer := new ChunkQueue.MemoryBuffer();
      isOpen := true;
    }

    // One conversion, one write and at most one read of an output packet.
    method Execute(conversion: Option<seq<byte>>) returns (dst: Option<seq<byte>>)
      requires Valid()
      modifies buffer, buffer.Repr
      ensures Valid() && fresh(buffer.Repr - old(buffer.Repr))
      ensures if isOpen && conversion.Some?
        then (dst, buffer.Contents()) == CutOne(sizes.dst, old(buffer.Contents()), conversion.value)
        else dst == None && buffer.Contents() == old(buffer.Contents())
    {
      if !isOpen { return None; }
      if conversion.None? { return None; }
      dst := WriteThenRead(buffer, conversion.value, sizes.dst);
    }
  }

  class SystemAudioCaptrue {
    const resampling: AudioResampling
    const buffer: ChunkQueue.MemoryBuffer
    const queueIn: ThreadQueue.ThreadQueue<seq<byte>>
    const queueOut: ThreadQueue.ThreadQueue<seq<byte>>
    ghost var history: State

    ghost predicate Buffers()
      reads this, resampling, buffer, buffer.Repr, resampling.buffer, resampling.buffer.Repr
    {
      && buffer != resampling.buffer && buffer.Repr !! resampling.buffer.Repr
      && buffer.Valid() && resampling.Valid()
    }

    ghost predicate Queues()
      reads this, queueIn, queueOut
    {
      queueIn != queueOut && history.queueIn == queueIn.contents && history.queueOut == queueOut.contents
    }

    // The fields are those of the state the history has come to.
    ghost predicate Valid()
      reads this, resampling, buffer, buffer.Repr, resampling.buffer, resampling.buffer.Repr, queueIn, queueOut
    {
      && Buffers() && Queues()
      && history.pipe.src == buffer.Contents() && history.pipe.dst == resampling.buffer.Contents()
    }

    constructor (sizes: BlockSizes)
      ensures Valid() && history == Run(sizes, []) && resampling.sizes == sizes && resampling.isOpen
    {
      resampling := new AudioResampling(sizes);
      buffer := new ChunkQueue.MemoryBuffer();
      queueIn := new ThreadQueue.ThreadQueue();
      queueOut := new ThreadQueue.ThreadQueue();
      history := INITIAL;
    }

    // The capture callback: drops the packet when the consumer is more than two behind.
    method OnCapture(data: Option<seq<byte>>)
      requires Valid() && history.checked.None?
      modifies this, queueIn
      ensures Valid()
      ensures history == Do(resampling.sizes, Do(resampling.sizes, old(history), Check(data)), Keep)
      ensures queueIn.contents == old(queueIn.contents) +
        if data.Some? && |queueOut.contents| <= 2 then [data.value] else []
    {
      if data.None? { return; }
      var waiting := queueOut.Size();
      if waiting > 2 { return; }
      queueIn.Push(data.value);
      history := Do(resampling.sizes, Do(resampling.sizes, history, Check(data)), Keep);
    }

    // What the resampler gives when it is closed.
    function Converted(conversion: Option<seq<byte>>): Option<seq<byte>>
      reads resampling
    {
      if resampling.isOpen then conversion else None
    }

    // What the worker does with one packet.
    method Process(data: seq<byte>, conversion: Option<seq<byte>>) returns (dst: Option<seq<byte>>)
      requires Buffers()
      modifies buffer, buffer.Repr, resampling.buffer, resampling.buffer.Repr
      ensures Buffers()
      ensures (dst, buffer.Contents(), resampling.buffer.Contents()) ==
        Worked(resampling.sizes, old(buffer.Contents()), old(resampling.buffer.Contents()), data, Converted(conversion))
    {
      dst := None;
      var src := WriteThenRead(buffer, data, resampling.sizes.src);
      if src.Some? { dst := resampling.Execute(conversion); }
    }

    // The resampler's callback.
    method Emit(dst: Option<seq<byte>>)
      modifies queueOut
      ensures queueOut.contents == old(queueOut.contents) + ToSeq(dst)
    {
      if dst.Some? { queueOut.Push(dst.value); }
    }

    // The worker pops a packet ...
    method TakeOne() returns (data: Option<seq<byte>>)
      requires Valid() && history.inHand.None?
      modifies this, queueIn
      ensures Valid() && history == Do(resampling.sizes, old(history), Take) && data == history.inHand
      ensures ToSeq(data) + queueIn.contents == old(queueIn.contents) && (data.None? ==> queueIn.contents == [])
    {
      data := queueIn.Pop();
      history := Do(resampling.sizes, history, Take);
    }

    // ... and works on it.
    method Deliver(data: seq<byte>, conversion: Option<seq<byte>>)
      requires Valid() && history.inHand == Some(data)
      modifies this, queueOut, buffer, buffer.Repr, resampling.buffer, resampling.buffer.Repr
      ensures Valid() && history == Do(resampling.sizes, old(history), Work(old(Converted(conversion))))
    {
      ghost var z, s, c := resampling.sizes, history, Converted(conversion);
      var dst := Process(data, conversion);
      WorkIs(z, s, data, c);
      Emit(dst);
      history := Do(z, s, Work(c));
    }

    // One round of the worker thread.
    method WorkOnce(conversion: Option<seq<byte>>)
      requires Valid() && history.inHand.None?
      modifies this, queueIn, queueOut, buffer, buffer.Repr, resampling.buffer, resampling.buffer.Repr
      ensures Valid()
      ensures history ==
        Do(resampling.sizes, Do(resampling.sizes, old(history), Take), Work(old(Converted(conversion))))
    {
      var data := TakeOne();
      if data.Some? { Deliver(data.value, conversion); }
    }

    method GetAudioData() returns (r: Option<seq<byte>>)
      requires Valid()
      modifies this, queueOut
      ensures Valid() && history == Do(resampling.sizes, old(history), Fetch)
      ensures r == if old(queueOut.contents) == [] then None else Some(old(queueOut.contents)[0])
    {
      r := queueOut.Pop();
      history := Do(resampling.sizes, history, Fetch);
    }
  }
}
