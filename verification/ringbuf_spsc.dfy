/** One producer in ringbuf_write and one consumer in ringbuf_read, interleaved at the level
    of index loads, byte copies and index publication (modules/common/src/ringbuf.c:64-118).
    Steps are sequentially consistent. */
module RingSpsc {
  import opened Basics
  import opened Bits
  import opened RingBuf

  /** ringbuf_write: outdex has been loaded and `done` bytes of `data` are in place. */
  datatype Producer = PIdle | PCopying(data: seq<byte>, done: nat)

  /** ringbuf_read: index has been loaded once, or twice and `got` has been copied. */
  datatype Consumer = CIdle | CFound(offset: nat, size: nat) | CCopying(offset: nat, len: nat, got: seq<byte>)

  /** What one ringbuf_read handed out, and the position of its first byte in the stream. */
  datatype Take = Take(at: nat, bytes: seq<byte>)

  datatype State = State(
    bits: nat, buf: seq<byte>, index: Word, outdex: Word,
    producer: Producer, consumer: Consumer,
    // history: every byte published, how many were consumed, and every read
    produced: seq<byte>, consumed: nat, takes: seq<Take>)

  datatype Step =
    | StartWrite(data: seq<byte>)
    | CopyIn
    | Publish
    | StartRead(offset: nat, size: nat)
    | LoadLength
    | CopyOut
    | Consume

  function Cap(s: State): nat {
    Pow2(s.bits)
  }

  ghost predicate Init(s: State) {
    && s.bits <= 31 && |s.buf| == Cap(s) && s.index == 0 && s.outdex == 0
    && s.producer == PIdle && s.consumer == CIdle
    && s.produced == [] && s.consumed == 0 && s.takes == []
  }

  ghost predicate Enabled(s: State, step: Step) {
    match step
    case StartWrite(_) => s.producer.PIdle?
    case CopyIn => s.producer.PCopying? && s.producer.done < |s.producer.data|
    case Publish => s.producer.PCopying? && s.producer.done == |s.producer.data|
    case StartRead(_, _) => s.consumer.CIdle?
    case LoadLength => s.consumer.CFound?
    case CopyOut => s.consumer.CCopying? && |s.consumer.got| < s.consumer.len
    case Consume => s.consumer.CCopying? && |s.consumer.got| == s.consumer.len
  }

  /** What each step does, by the code's own index arithmetic. */
  ghost function Next(s: State, step: Step): State
    requires Enabled(s, step) && |s.buf| == Cap(s)
  {
    match step
    case StartWrite(data) =>
      // get_available, on the outdex loaded now
      var length := Minus(s.index, s.outdex);
      var len := if length <= Cap(s) then Min(Cap(s) - length, |data|) else 0;
      s.(producer := PCopying(data[..len], 0))
    case CopyIn =>
      var at := Wrap(GetIndex(s.index, Cap(s)), s.producer.done, Cap(s));
      if at < |s.buf|
      then s.(buf := s.buf[at := s.producer.data[s.producer.done]],
              producer := PCopying(s.producer.data, s.producer.done + 1))
      else s
    case Publish =>
      var len := |s.producer.data|;
      if len < WORD
      then s.(index := Plus(s.index, len), producer := PIdle, produced := s.produced + s.producer.data)
      else s
    case StartRead(offset, size) =>
      // get_pointer: is there anything at the offset?
      if offset >= Minus(s.index, s.outdex) then s else s.(consumer := CFound(offset, size))
    case LoadLength =>
      // read_core loads the length again
      var offset, size := s.consumer.offset, s.consumer.size;
      var length := Minus(s.index, s.outdex);
      if offset <= length then s.(consumer := CCopying(offset, Min(length - offset, size), [])) else s
    case CopyOut =>
      var c := s.consumer;
      var first := c.offset;
      if first >= WORD then s
      else
        var at := Wrap(GetIndex(Plus(s.outdex, first), Cap(s)), |c.got|, Cap(s));
        if at < |s.buf| then s.(consumer := CCopying(c.offset, c.len, c.got + [s.buf[at]])) else s
    case Consume =>
      var c := s.consumer;
      var n := c.len + c.offset;
      // nothing read, or (never) fewer bytes there than just read: outdex stays
      if c.len == 0 || Minus(s.index, s.outdex) < n then s.(consumer := CIdle)
      else s.(outdex := Plus(s.outdex, n), consumer := CIdle, consumed := s.consumed + n,
              takes := s.takes + [Take(s.consumed + c.offset, c.got)])
  }

  // ------------------------------------------------------------------ invariant

  function Cell(t: nat, cap: nat): nat
    requires cap > 0
  {
    t % cap
  }

  /** The counters are the wrapped images of the history, and every published byte that is
      not consumed is in its cell. */
  ghost predicate Stream(s: State) {
    && s.bits <= 31 && |s.buf| == Cap(s)
    && s.consumed <= |s.produced| <= s.consumed + Cap(s)
    && s.index == |s.produced| % WORD && s.outdex == s.consumed % WORD
    && forall t :: s.consumed <= t < |s.produced| ==> s.buf[Cell(t, Cap(s))] == s.produced[t]
  }

  /** The producer's bytes go to cells that hold nothing unread. */
  ghost predicate ProducerOk(s: State)
    requires Stream(s)
  {
    s.producer.PCopying? ==>
      var p := s.producer;
      && p.done <= |p.data| && |s.produced| + |p.data| <= s.consumed + Cap(s)
      && forall j :: 0 <= j < p.done ==> s.buf[Cell(|s.produced| + j, Cap(s))] == p.data[j]
  }

  /** The consumer reads only bytes that were published, and reads them right. */
  ghost predicate ConsumerOk(s: State)
    requires Stream(s)
  {
    match s.consumer
    case CIdle => true
    case CFound(offset, _) => s.consumed + offset < |s.produced|
    case CCopying(offset, len, got) =>
      && s.consumed + offset + len <= |s.produced| && |got| <= len
      && got == s.produced[s.consumed + offset..s.consumed + offset + |got|]
  }

  /** Every read handed out a stretch of the stream, one after the other. */
  ghost predicate TakesOk(s: State) {
    && (forall i :: 0 <= i < |s.takes| ==> IsStretch(s.takes[i], s.produced, s.consumed))
    && (forall i, j :: 0 <= i < j < |s.takes| ==> s.takes[i].at + |s.takes[i].bytes| <= s.takes[j].at)
  }

  ghost predicate IsStretch(t: Take, produced: seq<byte>, consumed: nat) {
    t.at + |t.bytes| <= consumed && t.at + |t.bytes| <= |produced| && t.bytes == produced[t.at..t.at + |t.bytes|]
  }

  ghost predicate Inv(s: State) {
    Stream(s) && ProducerOk(s) && ConsumerOk(s) && TakesOk(s)
  }

  lemma InitInv(s: State)
    requires Init(s)
    ensures Inv(s)
  {
  }

  lemma LengthIs(s: State)
    requires Stream(s)
    ensures Minus(s.index, s.outdex) == |s.produced| - s.consumed <= Cap(s) <= 0x8000_0000
  {
    CapacityBelowWord(s.bits);
    PlusIsMod(s.index, s.outdex);
    var p, c := |s.produced|, s.consumed;
    WrappedDifference(p, c);
  }

  lemma WrappedDifference(p: nat, c: nat)
    requires c <= p < c + WORD
    ensures (p % WORD - c % WORD) % WORD == p - c
  {
    var q, r := c / WORD, c % WORD;
    var d := p - c;
    if r + d < WORD {
      DivideUnique(p, WORD, q, r + d);
    } else {
      DivideUnique(p, WORD, q + 1, r + d - WORD);
      DivideUnique(d - WORD, WORD, -1, d);
    }
  }

  /** The code's cell for the j-th byte from counter t on. */
  lemma CellIs(t: nat, j: nat, k: nat)
    requires k <= 31 && j <= Pow2(k)
    ensures Wrap(GetIndex(t % WORD, Pow2(k)), j, Pow2(k)) == Cell(t + j, Pow2(k)) < Pow2(k)
  {
    MaskIsMod(t % WORD, k);
    CounterCell(t, k);
    WrapIsMod(t, j, Pow2(k));
  }

  lemma DistinctCells(t: nat, u: nat, cap: nat)
    requires cap > 0 && t < u < t + cap
    ensures Cell(t, cap) != Cell(u, cap)
  {
    WrapIsMod(t, u - t, cap);
  }

  lemma PlusWrapped(t: nat, n: nat)
    requires n < WORD
    ensures Plus(t % WORD, n) == (t + n) % WORD
  {
    PlusIsMod(t % WORD, n);
    var s := t % WORD + n;
    DivideUnique(t + n, WORD, t / WORD + s / WORD, s % WORD);
  }

  // --------------------------------------------------------------- preservation

  lemma StartWriteInv(s: State, data: seq<byte>)
    requires Inv(s) && Enabled(s, StartWrite(data))
    ensures Inv(Next(s, StartWrite(data)))
  {
    LengthIs(s);
  }

  /** The byte goes to a cell no unread byte lives in. */
  lemma CopyInInv(s: State)
    requires Inv(s) && Enabled(s, CopyIn)
    ensures Inv(Next(s, CopyIn))
    ensures Next(s, CopyIn).producer.done == s.producer.done + 1
  {
    var p, cap, n := s.producer, Cap(s), |s.produced|;
    CellIs(n, p.done, s.bits);
    var at := Cell(n + p.done, cap);
    var s' := s.(buf := s.buf[at := p.data[p.done]], producer := PCopying(p.data, p.done + 1));
    assert Next(s, CopyIn) == s';
    CopyInCells(s, at);
    assert Stream(s');
  }

  lemma CopyInCells(s: State, at: nat)
    requires Stream(s) && ProducerOk(s) && Enabled(s, CopyIn)
    requires at == Cell(|s.produced| + s.producer.done, Cap(s)) < Cap(s)
    ensures var b := s.buf[at := s.producer.data[s.producer.done]];
            && (forall t :: s.consumed <= t < |s.produced| ==> b[Cell(t, Cap(s))] == s.produced[t])
            && (forall j :: 0 <= j < s.producer.done + 1 ==> b[Cell(|s.produced| + j, Cap(s))] == s.producer.data[j])
  {
    var p, cap, n := s.producer, Cap(s), |s.produced|;
    var b := s.buf[at := p.data[p.done]];
    forall t | s.consumed <= t < n ensures b[Cell(t, cap)] == s.produced[t] {
      DistinctCells(t, n + p.done, cap);
    }
    forall j | 0 <= j < p.done + 1 ensures b[Cell(n + j, cap)] == p.data[j] {
      if j < p.done {
        DistinctCells(n + j, n + p.done, cap);
      }
    }
  }

  lemma PublishInv(s: State)
    requires Inv(s) && Enabled(s, Publish)
    ensures Inv(Next(s, Publish)) && Next(s, Publish).produced == s.produced + s.producer.data
  {
    LengthIs(s);
    var d, n := s.producer.data, |s.produced|;
    PlusWrapped(n, |d|);
    var s' := Next(s, Publish);
    forall t | s.consumed <= t < n + |d| ensures s'.buf[Cell(t, Cap(s))] == s'.produced[t] {
      if t >= n {
        assert s.buf[Cell(n + (t - n), Cap(s))] == d[t - n];
      }
    }
    forall i | 0 <= i < |s.takes| ensures IsStretch(s.takes[i], s'.produced, s.consumed) {
      assert IsStretch(s.takes[i], s.produced, s.consumed);
    }
  }

  lemma StartReadInv(s: State, offset: nat, size: nat)
    requires Inv(s) && Enabled(s, StartRead(offset, size))
    ensures Inv(Next(s, StartRead(offset, size)))
  {
    LengthIs(s);
  }

  lemma LoadLengthInv(s: State)
    requires Inv(s) && Enabled(s, LoadLength)
    ensures Inv(Next(s, LoadLength)) && Next(s, LoadLength).consumer.CCopying?
  {
    LengthIs(s);
  }

  /** The byte copied out is the published one. */
  lemma CopyOutByte(s: State)
    requires Inv(s) && Enabled(s, CopyOut)
    ensures var c := s.consumer;
            var t := s.consumed + c.offset + |c.got|;
            t < |s.produced| && Next(s, CopyOut) == s.(consumer := CCopying(c.offset, c.len, c.got + [s.produced[t]]))
  {
    LengthIs(s);
    var c := s.consumer;
    var t := s.consumed + c.offset;
    PlusWrapped(s.consumed, c.offset);
    CellIs(t, |c.got|, s.bits);
    assert s.buf[Cell(t + |c.got|, Cap(s))] == s.produced[t + |c.got|];
  }

  lemma CopyOutInv(s: State)
    requires Inv(s) && Enabled(s, CopyOut)
    ensures Inv(Next(s, CopyOut))
  {
    hide Next, ProducerOk, TakesOk, Cell;
    CopyOutByte(s);
    OneMore(s.produced, s.consumed + s.consumer.offset, s.consumer.got);
    ConsumerOnly(s, Next(s, CopyOut).consumer);
  }

  lemma ConsumerOnly(s: State, c: Consumer)
    requires Stream(s) && ProducerOk(s) && TakesOk(s)
    ensures Stream(s.(consumer := c)) && ProducerOk(s.(consumer := c)) && TakesOk(s.(consumer := c))
  {
  }

  lemma OneMore(s: seq<byte>, a: nat, got: seq<byte>)
    requires a + |got| < |s| && got == s[a..a + |got|]
    ensures got + [s[a + |got|]] == s[a..a + |got + [s[a + |got|]]|]
  {
  }

  /** The recheck in consume_core never fails after a read. */
  lemma ConsumeInv(s: State)
    requires Inv(s) && Enabled(s, Consume)
    ensures Inv(Next(s, Consume))
    ensures s.consumer.len > 0 ==> Next(s, Consume).consumed == s.consumed + s.consumer.offset + s.consumer.len
  {
    LengthIs(s);
    var c := s.consumer;
    PlusWrapped(s.consumed, c.len + c.offset);
    var s' := Next(s, Consume);
    forall i | 0 <= i < |s'.takes| ensures IsStretch(s'.takes[i], s'.produced, s'.consumed) {
      if i < |s.takes| {
        assert IsStretch(s.takes[i], s.produced, s.consumed);
      }
    }
  }

  lemma NextInv(s: State, step: Step)
    requires Inv(s) && Enabled(s, step)
    ensures Inv(Next(s, step))
  {
    match step
    case StartWrite(data) => StartWriteInv(s, data);
    case CopyIn => CopyInInv(s);
    case Publish => PublishInv(s);
    case StartRead(offset, size) => StartReadInv(s, offset, size);
    case LoadLength => LoadLengthInv(s);
    case CopyOut => CopyOutInv(s);
    case Consume => ConsumeInv(s);
  }

  // ------------------------------------------------------------------ whole runs

  ghost predicate IsRun(states: seq<State>, steps: seq<Step>) {
    && |states| == |steps| + 1 && Init(states[0])
    && forall i :: 0 <= i < |steps| ==>
         Enabled(states[i], steps[i]) && |states[i].buf| == Cap(states[i]) && states[i + 1] == Next(states[i], steps[i])
  }

  lemma {:induction false} RunInv(states: seq<State>, steps: seq<Step>, i: nat)
    requires IsRun(states, steps) && i < |states|
    ensures Inv(states[i])
  {
    if i == 0 {
      InitInv(states[0]);
    } else {
      RunInv(states, steps, i - 1);
      NextInv(states[i - 1], steps[i - 1]);
    }
  }

  ghost function Delivered(takes: seq<Take>): seq<byte> {
    if takes == [] then [] else Delivered(takes[..|takes| - 1]) + takes[|takes| - 1].bytes
  }

  ghost function Reached(takes: seq<Take>): nat {
    if takes == [] then 0 else takes[|takes| - 1].at + |takes[|takes| - 1].bytes|
  }

  /** Each read starts where the one before it ended. */
  ghost predicate NoGaps(takes: seq<Take>) {
    forall i :: 0 <= i < |takes| ==> takes[i].at == Reached(takes[..i])
  }

  lemma {:induction false} DeliveredIsPrefix(takes: seq<Take>, produced: seq<byte>, consumed: nat)
    requires forall i :: 0 <= i < |takes| ==> IsStretch(takes[i], produced, consumed)
    requires NoGaps(takes)
    ensures Reached(takes) <= |produced| && Delivered(takes) == produced[..Reached(takes)]
  {
    if takes != [] {
      var m := |takes| - 1;
      NoGapsInit(takes);
      DeliveredIsPrefix(takes[..m], produced, consumed);
      assert IsStretch(takes[m], produced, consumed);
      assert takes[m].at == Reached(takes[..m]);
      Rejoin(produced, takes[m].at, takes[m].at + |takes[m].bytes|);
    }
  }

  lemma NoGapsInit(takes: seq<Take>)
    requires NoGaps(takes) && takes != []
    ensures NoGaps(takes[..|takes| - 1])
  {
    var init := takes[..|takes| - 1];
    forall i | 0 <= i < |init| ensures init[i].at == Reached(init[..i]) {
      assert init[..i] == takes[..i] && init[i] == takes[i];
    }
  }

  lemma Rejoin(s: seq<byte>, a: nat, b: nat)
    requires a <= b <= |s|
    ensures s[..a] + s[a..b] == s[..b]
  {
  }

  ghost predicate ReadsFromFront(steps: seq<Step>) {
    forall i :: 0 <= i < |steps| && steps[i].StartRead? ==> steps[i].offset == 0
  }

  ghost predicate GapFree(s: State) {
    && (s.consumer.CIdle? || s.consumer.offset == 0)
    && NoGaps(s.takes) && Reached(s.takes) == s.consumed
  }

  lemma GapFreeStep(s: State, step: Step)
    requires Inv(s) && Enabled(s, step) && GapFree(s) && (step.StartRead? ==> step.offset == 0)
    ensures GapFree(Next(s, step))
  {
    if step.Consume? && s.consumer.len > 0 {
      LengthIs(s);
      AppendNoGaps(s.takes, Take(s.consumed + s.consumer.offset, s.consumer.got));
    }
  }

  lemma AppendNoGaps(takes: seq<Take>, t: Take)
    requires NoGaps(takes) && t.at == Reached(takes)
    ensures NoGaps(takes + [t]) && Reached(takes + [t]) == t.at + |t.bytes|
  {
    var takes' := takes + [t];
    forall i | 0 <= i < |takes'| ensures takes'[i].at == Reached(takes'[..i]) {
      if i < |takes| {
        assert takes'[..i] == takes[..i];
      } else {
        assert takes'[..i] == takes;
      }
    }
  }

  lemma {:induction false} RunGapFree(states: seq<State>, steps: seq<Step>, i: nat)
    requires IsRun(states, steps) && i < |states| && ReadsFromFront(steps)
    ensures GapFree(states[i])
  {
    if i > 0 {
      RunGapFree(states, steps, i - 1);
      RunInv(states, steps, i - 1);
      GapFreeStep(states[i - 1], steps[i - 1]);
    }
  }

  // ------------------------------------------------- what was written and what is read, by the steps

  /** What every step does, by the stream and the positions in it. */
  lemma StepMeans(s: State, step: Step)
    requires Inv(s) && Enabled(s, step)
    ensures var s', held := Next(s, step), |s.produced| - s.consumed;
            && s'.bits == s.bits && 0 <= held <= Pow2(s.bits)
            && (step.StartWrite? ==>
                  s' == s.(producer := PCopying(step.data[..Min(Pow2(s.bits) - held, |step.data|)], 0)))
            && (step.CopyIn? ==>
                  s'.producer == PCopying(s.producer.data, s.producer.done + 1) && s'.consumer == s.consumer)
            && (step.Publish? ==>
                  s'.producer == PIdle && s'.produced == s.produced + s.producer.data && s'.consumer == s.consumer)
            && (step.StartRead? ==>
                  s' == s.(consumer := if step.offset < held then CFound(step.offset, step.size) else CIdle))
            && (step.LoadLength? ==>
                  && held - s.consumer.offset > 0
                  && s' == s.(consumer := CCopying(s.consumer.offset, Min(held - s.consumer.offset, s.consumer.size),
                                                   [])))
            && (step.CopyOut? ==>
                  && s'.consumer.CCopying? && s'.consumer.offset == s.consumer.offset
                  && s'.consumer.len == s.consumer.len && |s'.consumer.got| == |s.consumer.got| + 1
                  && s'.producer == s.producer)
            && (step.Consume? ==>
                  var at, n := s.consumed + s.consumer.offset, s.consumer.len;
                  && s'.consumer == CIdle && s'.producer == s.producer && at + n <= |s.produced|
                  && (if n == 0 then s'.takes == s.takes && s'.consumed == s.consumed
                      else s'.takes == s.takes + [Take(at, s.produced[at..at + n])] && s'.consumed == at + n))
            && (!step.Publish? ==> s'.produced == s.produced)
            && (!step.Consume? ==> s'.takes == s.takes && s'.consumed == s.consumed)
  {
    LengthIs(s);
    match step
    case StartWrite(data) =>
    case CopyIn => CopyInInv(s); CopyInOnly(s);
    case Publish => PublishInv(s);
    case StartRead(offset, size) =>
    case LoadLength =>
    case CopyOut => CopyOutByte(s);
    case Consume => ConsumeInv(s);
  }

  lemma CopyInOnly(s: State)
    requires Inv(s) && Enabled(s, CopyIn)
    ensures var s' := Next(s, CopyIn);
            && s'.producer == PCopying(s.producer.data, s.producer.done + 1) && s'.consumer == s.consumer
            && s'.produced == s.produced && s'.takes == s.takes && s'.consumed == s.consumed && s'.bits == s.bits
  {
    CellIs(|s.produced|, s.producer.done, s.bits);
  }

  /** The last of the first i steps that begins a write, that begins a read, and that loads the length for it. */
  function LastWrite(steps: seq<Step>, i: nat): (j: int)
    requires i <= |steps|
    ensures -1 <= j < i && (j >= 0 ==> steps[j].StartWrite?) && forall k :: j < k < i ==> !steps[k].StartWrite?
  {
    if i == 0 then -1 else if steps[i - 1].StartWrite? then i - 1 else LastWrite(steps, i - 1)
  }

  function LastRead(steps: seq<Step>, i: nat): (j: int)
    requires i <= |steps|
    ensures -1 <= j < i && (j >= 0 ==> steps[j].StartRead?) && forall k :: j < k < i ==> !steps[k].StartRead?
  {
    if i == 0 then -1 else if steps[i - 1].StartRead? then i - 1 else LastRead(steps, i - 1)
  }

  function LastLoad(steps: seq<Step>, i: nat): (j: int)
    requires i <= |steps|
    ensures -1 <= j < i && (j >= 0 ==> steps[j].LoadLength?) && forall k :: j < k < i ==> !steps[k].LoadLength?
  {
    if i == 0 then -1 else if steps[i - 1].LoadLength? then i - 1 else LastLoad(steps, i - 1)
  }

  /** What a write that begins in a state takes of its data. */
  ghost function Accepted(s: State, data: seq<byte>): seq<byte> {
    var free := Pow2(s.bits) - (|s.produced| - s.consumed);
    if free <= 0 then [] else if free < |data| then data[..free] else data
  }

  /** How many bytes a read takes that loads the length in a state. */
  ghost function Available(s: State, offset: nat, size: nat): nat {
    var left := |s.produced| - s.consumed - offset;
    if left <= 0 then 0 else if left < size then left else size
  }

  /** A write under way is the last one that was begun. */
  ghost predicate Writing(states: seq<State>, steps: seq<Step>, i: nat)
    requires i < |states| && |states| == |steps| + 1
  {
    var p, w := states[i].producer, LastWrite(steps, i);
    p.PCopying? ==> w >= 0 && p.data == Accepted(states[w], steps[w].data)
  }

  /** And so is a read. */
  ghost predicate Reading(states: seq<State>, steps: seq<Step>, i: nat)
    requires i < |states| && |states| == |steps| + 1
  {
    var c, r, l := states[i].consumer, LastRead(steps, i), LastLoad(steps, i);
    && (c.CFound? ==> r >= 0 && c == CFound(steps[r].offset, steps[r].size))
    && (c.CCopying? ==>
         && r >= 0 && l > r && c.offset == steps[r].offset
         && c.len == Available(states[l], steps[r].offset, steps[r].size))
  }

  lemma {:induction false} IsUnderWay(states: seq<State>, steps: seq<Step>, i: nat)
    requires IsRun(states, steps) && i < |states|
    ensures Writing(states, steps, i) && Reading(states, steps, i)
  {
    hide Next, Inv, IsRun, Enabled, Available, Accepted;
    RunBegins(states, steps);
    if i > 0 {
      IsUnderWay(states, steps, i - 1);
      RunStep(states, steps, i - 1, i);
      GoesOn(states[i - 1], steps[i - 1]);
      WriteGoesOn(states, steps, i - 1, i);
      ReadGoesOn(states, steps, i - 1, i);
    }
  }

  lemma RunBegins(states: seq<State>, steps: seq<Step>)
    requires IsRun(states, steps)
    ensures |states| == |steps| + 1 && Init(states[0])
  {
  }

  lemma RunStep(states: seq<State>, steps: seq<Step>, i: nat, i': nat)
    requires IsRun(states, steps) && i < |steps| && i' == i + 1
    ensures |states| == |steps| + 1 && Inv(states[i]) && Enabled(states[i], steps[i])
    ensures states[i'] == Next(states[i], steps[i])
  {
    RunInv(states, steps, i);
  }

  /** What a step does to a write and a read under way. */
  lemma GoesOn(s: State, step: Step)
    requires Inv(s) && Enabled(s, step)
    ensures Pow2(s.bits) >= |s.produced| - s.consumed
    ensures var p, p' := s.producer, Next(s, step).producer;
            if step.StartWrite? then p' == PCopying(Accepted(s, step.data), 0)
            else p'.PCopying? ==> p.PCopying? && p'.data == p.data
    ensures var c, c' := s.consumer, Next(s, step).consumer;
            if step.StartRead? then c' == CIdle || c' == CFound(step.offset, step.size)
            else if step.LoadLength? then
              c.CFound? && c' == CCopying(c.offset, Available(s, c.offset, c.size), [])
            else
              && (c'.CFound? ==> c' == c)
              && (c'.CCopying? ==> c.CCopying? && c'.offset == c.offset && c'.len == c.len)
  {
    hide Next, Inv;
    StepMeans(s, step);
  }

  lemma WriteGoesOn(states: seq<State>, steps: seq<Step>, i: nat, i': nat)
    requires i' == i + 1 < |states| && |states| == |steps| + 1 && Writing(states, steps, i)
    requires Pow2(states[i].bits) >= |states[i].produced| - states[i].consumed
    requires var p, p', step := states[i].producer, states[i'].producer, steps[i];
             if step.StartWrite? then p' == PCopying(Accepted(states[i], step.data), 0)
             else p'.PCopying? ==> p.PCopying? && p'.data == p.data
    ensures Writing(states, steps, i')
  {
  }

  lemma ReadGoesOn(states: seq<State>, steps: seq<Step>, i: nat, i': nat)
    requires i' == i + 1 < |states| && |states| == |steps| + 1 && Reading(states, steps, i)
    requires var c, c', step := states[i].consumer, states[i'].consumer, steps[i];
             if step.StartRead? then c' == CIdle || c' == CFound(step.offset, step.size)
             else if step.LoadLength? then
               c.CFound? && c' == CCopying(c.offset, Available(states[i], c.offset, c.size), [])
             else
               && (c'.CFound? ==> c' == c)
               && (c'.CCopying? ==> c.CCopying? && c'.offset == c.offset && c'.len == c.len)
    ensures Reading(states, steps, i')
  {
  }

  /** The bytes published by the first i steps: for each publication, what its write took of its data. */
  ghost function Published(states: seq<State>, steps: seq<Step>, i: nat): seq<byte>
    requires i < |states| && |states| == |steps| + 1
  {
    if i == 0 then []
    else
      var w := LastWrite(steps, i - 1);
      Published(states, steps, i - 1) +
      if steps[i - 1].Publish? && w >= 0 then Accepted(states[w], steps[w].data) else []
  }

  lemma PublishMeans(s: State, step: Step)
    requires Inv(s) && Enabled(s, step)
    ensures Next(s, step).bits == s.bits && Pow2(s.bits) >= |s.produced| - s.consumed
    ensures Next(s, step).produced == s.produced + if step.Publish? then s.producer.data else []
    ensures step.StartWrite? ==>
              Accepted(s, step.data) == step.data[..Min(Pow2(s.bits) - (|s.produced| - s.consumed), |step.data|)]
  {
    hide Next, Inv;
    StepMeans(s, step);
  }

  /** A write takes the first bytes of its data, as many as there is room for when outdex is loaded, and what is
      produced is what the writes that are published have taken, one after the other. */
  lemma {:induction false} ProducedIsWritten(states: seq<State>, steps: seq<Step>, i: nat)
    requires IsRun(states, steps) && i < |states|
    ensures states[i].produced == Published(states, steps, i)
    ensures forall j :: 0 <= j < i && steps[j].StartWrite? ==>
              var free := Pow2(states[0].bits) - (|states[j].produced| - states[j].consumed);
              free >= 0 && Accepted(states[j], steps[j].data) == steps[j].data[..Min(free, |steps[j].data|)]
    ensures states[i].bits == states[0].bits
  {
    hide Next, Inv, IsRun, Accepted;
    RunBegins(states, steps);
    if i > 0 {
      ProducedIsWritten(states, steps, i - 1);
      IsUnderWay(states, steps, i - 1);
      RunStep(states, steps, i - 1, i);
      PublishMeans(states[i - 1], steps[i - 1]);
    }
  }

  /** A read that is over has handed out the bytes at its offset, as many as there were when it loaded the length the
      second time, but no more than were asked for; they and those before them are consumed. */
  lemma ReadTakes(states: seq<State>, steps: seq<Step>, i: nat)
    requires IsRun(states, steps) && i < |steps| && steps[i].Consume?
    ensures var r, l := LastRead(steps, i), LastLoad(steps, i);
            && 0 <= r < l
            && var s, s', offset := states[i], states[i + 1], steps[r].offset;
               var left := |states[l].produced| - states[l].consumed - offset;
               && left > 0
               && var n := Min(left, steps[r].size);
                  && s.consumed + offset + n <= |s.produced|
                  && if n == 0 then s'.takes == s.takes && s'.consumed == s.consumed
                     else
                       && s'.consumed == s.consumed + offset + n
                       && s'.takes == s.takes + [Take(s.consumed + offset,
                                                      s.produced[s.consumed + offset..s.consumed + offset + n])]
  {
    hide Next, Inv;
    IsUnderWay(states, steps, i);
    RunInv(states, steps, i);
    StepMeans(states[i], steps[i]);
    var l := LastLoad(steps, i);
    if l >= 0 {
      LoadHasSome(states, steps, l);
    }
  }

  lemma LoadHasSome(states: seq<State>, steps: seq<Step>, l: nat)
    requires IsRun(states, steps) && l < |steps| && steps[l].LoadLength?
    ensures LastRead(steps, l) >= 0
    ensures |states[l].produced| - states[l].consumed - steps[LastRead(steps, l)].offset > 0
  {
    IsUnderWay(states, steps, l);
    RunInv(states, steps, l);
    StepMeans(states[l], steps[l]);
  }

  /** At every point of every run, each read has handed out the bytes of the stream at its
      position, in order; when no read asks for an offset, what has been delivered is exactly
      the consumed prefix of what was produced. */
  lemma SafeDelivery(states: seq<State>, steps: seq<Step>, i: nat)
    requires IsRun(states, steps) && i < |states|
    ensures TakesOk(states[i]) && states[i].consumed <= |states[i].produced|
    ensures states[i].produced == Published(states, steps, i)
    ensures ReadsFromFront(steps) ==> Delivered(states[i].takes) == states[i].produced[..states[i].consumed]
  {
    RunInv(states, steps, i);
    ProducedIsWritten(states, steps, i);
    if ReadsFromFront(steps) {
      RunGapFree(states, steps, i);
      DeliveredIsPrefix(states[i].takes, states[i].produced, states[i].consumed);
    }
  }
}
