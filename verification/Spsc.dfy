/** The single-producer single-consumer rings: 32-bit cursors that wrap, a power-of-two array, and two
    threads that each see the other's cursor as it was at some earlier time. */
module Spsc {
  import opened Bytes
  import opened Cursors

  const SIZE: nat := 524288        // ORDER_TO_EXC_SIZE and PARSER_TO_ENGINE_SIZE
  const TURNS: nat := U32 / SIZE

  // The ring in memory (data, w, r), what each thread last loaded of the other's cursor (seenR, seenW),
  // a slot written but not yet published, an entry taken but not yet released, and the history: all
  // entries pushed and popped, and how old the two views are.
  datatype Ring<T> = Ring(
    data: seq<T>, w: nat, r: nat, seenR: nat, seenW: nat,
    writing: Option<T>, taken: Option<T>,
    pushed: seq<T>, popped: seq<T>, viewR: nat, viewW: nat)

  // The steps of the two threads, interleaved in any order.
  datatype Step<T> =
    | LoadRead            // producer: acquire next_read
    | Write(x: T)         // producer: store into data[w & mask] if the ring is not full
    | Publish             // producer: release next_write = w + 1
    | LoadWrite           // consumer: acquire next_write
    | Take                // consumer: use data[r & mask] if the ring is not empty
    | Release             // consumer: release next_read = r + 1

  // The producer's check, on the cursors alone.
  predicate Full<T>(s: Ring<T>) { (s.w - s.seenR) % U32 >= SIZE }

  function Next<T>(s: Ring<T>, e: Step<T>): Ring<T>
    requires |s.data| == SIZE
  {
    match e
    case LoadRead => if s.writing.Some? then s else s.(seenR := s.r, viewR := |s.popped|)
    case Write(x) =>
      if s.writing.Some? || Full(s) then s else s.(data := s.data[s.w % SIZE := x], writing := Some(x))
    case Publish =>
      if s.writing.None? then s
      else s.(w := (s.w + 1) % U32, writing := None, pushed := s.pushed + [s.writing.value])
    case LoadWrite => if s.taken.Some? then s else s.(seenW := s.w, viewW := |s.pushed|)
    case Take => if s.taken.Some? || s.r == s.seenW then s else s.(taken := Some(s.data[s.r % SIZE]))
    case Release =>
      if s.taken.None? then s
      else s.(r := (s.r + 1) % U32, taken := None, popped := s.popped + [s.taken.value])
  }

  ghost predicate Inv<T>(s: Ring<T>) {
    && |s.data| == SIZE
    // cursors are the true counts modulo 2^32, and the views true counts of the past
    && s.w == |s.pushed| % U32 && s.r == |s.popped| % U32
    && s.seenR == s.viewR % U32 && s.seenW == s.viewW % U32
    && s.viewR <= |s.popped| <= s.viewW <= |s.pushed| <= s.viewR + SIZE
    // a slot is written only behind the oldest entry the producer knows to be unread
    && (s.writing.Some? ==> |s.pushed| < s.viewR + SIZE && s.data[|s.pushed| % SIZE] == s.writing.value)
    && (s.taken.Some? ==> |s.popped| < s.viewW && s.taken.value == s.pushed[|s.popped|])
    // unread entries are intact, and what was popped is what was pushed, in order
    && (forall k :: |s.popped| <= k < |s.pushed| ==> s.data[k % SIZE] == s.pushed[k])
    && s.popped == s.pushed[..|s.popped|]
  }

  ghost predicate Initial<T>(s: Ring<T>) {
    && |s.data| == SIZE && s.w == s.r == s.seenR == s.seenW == s.viewR == s.viewW == 0
    && s.writing.None? && s.taken.None? && s.pushed == [] && s.popped == []
  }

  // ---------- the checks on cursors ----------

  // The full check on wrapped cursors is exact for the view it is made with.
  lemma {:induction false} FullIff<T>(s: Ring<T>)
    requires Inv(s)
    ensures Full(s) <==> |s.pushed| == s.viewR + SIZE
  {
    Distance(|s.pushed|, s.viewR);
  }

  // And so is the empty check.
  lemma {:induction false} EmptyIff<T>(s: Ring<T>)
    requires Inv(s)
    ensures s.r == s.seenW <==> |s.popped| == s.viewW
  {
    SameCursor(s.viewW, |s.popped|);
  }

  // ---------- every step keeps the invariant ----------

  // A write never lands on an unread entry: it is less than a ring ahead of the oldest one.
  lemma {:induction false} WriteInv<T>(s: Ring<T>, x: T)
    requires Inv(s)
    ensures Inv(Next(s, Write(x)))
  {
    FullIff(s);
    Position(|s.pushed|, SIZE, TURNS);
    if s.writing.None? && !Full(s) {
      forall k | |s.popped| <= k < |s.pushed| ensures k % SIZE != |s.pushed| % SIZE { Apart(k, |s.pushed|, SIZE); }
    }
  }

  lemma {:induction false} TakeInv<T>(s: Ring<T>)
    requires Inv(s)
    ensures Inv(Next(s, Take))
  {
    EmptyIff(s);
    Position(|s.popped|, SIZE, TURNS);
  }

  lemma {:induction false} PublishInv<T>(s: Ring<T>)
    requires Inv(s)
    ensures Inv(Next(s, Publish))
  {
    Position(|s.pushed|, SIZE, TURNS);
  }

  lemma {:induction false} ReleaseInv<T>(s: Ring<T>)
    requires Inv(s)
    ensures Inv(Next(s, Release))
  {
    Position(|s.popped|, SIZE, TURNS);
  }

  lemma {:induction false} LoadInv<T>(s: Ring<T>, e: Step<T>)
    requires Inv(s) && (e.LoadRead? || e.LoadWrite?)
    ensures Inv(Next(s, e))
  {}

  lemma {:induction false} StepInv<T>(s: Ring<T>, e: Step<T>)
    requires Inv(s)
    ensures Inv(Next(s, e))
  {
    match e
    case Write(x) => WriteInv(s, x);
    case Take => TakeInv(s);
    case Publish => PublishInv(s);
    case Release => ReleaseInv(s);
    case _ => LoadInv(s, e);
  }

  // ---------- whole runs ----------

  ghost predicate IsRun<T(!new)>(states: seq<Ring<T>>, steps: seq<Step<T>>) {
    && |states| == |steps| + 1 && Initial(states[0])
    && forall k :: 0 <= k < |steps| ==> |states[k].data| == SIZE && states[k + 1] == Next(states[k], steps[k])
  }

  // For any interleaving of any length, however far the cursors have wrapped: what the consumer took is
  // a prefix of what the producer published, nothing unread is overwritten, nothing is read twice.
  lemma {:induction false} Fifo<T(!new)>(states: seq<Ring<T>>, steps: seq<Step<T>>, k: nat)
    requires IsRun(states, steps) && k < |states|
    ensures Inv(states[k]) && states[k].popped <= states[k].pushed
    ensures |states[k].pushed| - |states[k].popped| <= SIZE
  {
    if k > 0 {
      Fifo(states, steps, k - 1);
      StepInv(states[k - 1], steps[k - 1]);
    }
  }

  // With a fresh view a push is refused if and only if SIZE entries are unread.
  lemma {:induction false} FreshPushRefusedIff<T>(s: Ring<T>)
    requires Inv(s) && s.writing.None?
    ensures Full(Next(s, LoadRead)) <==> |s.pushed| - |s.popped| == SIZE
  {
    LoadInv(s, LoadRead);
    FullIff(Next(s, LoadRead));
  }

  // The producer's pass, uninterrupted: load the read cursor, write, publish.
  function Push<T>(s: Ring<T>, x: T): Ring<T>
    requires |s.data| == SIZE
  {
    Next(Next(Next(s, LoadRead), Write(x)), Publish)
  }

  lemma {:induction false} PushInv<T>(s: Ring<T>, x: T)
    requires Inv(s) && s.writing.None?
    ensures Inv(Push(s, x)) && Push(s, x).writing.None? && Push(s, x).taken == s.taken
    ensures (s.w - s.r) % U32 >= SIZE <==> |s.pushed| - |s.popped| == SIZE
    ensures Push(s, x).popped == s.popped && Push(s, x).r == s.r
    ensures if |s.pushed| - |s.popped| == SIZE
            then Push(s, x).pushed == s.pushed && Push(s, x).w == s.w && Push(s, x).data == s.data
            else && Push(s, x).pushed == s.pushed + [x] && Push(s, x).w == (s.w + 1) % U32
                 && Push(s, x).data == s.data[s.w % SIZE := x]
  {
    var t := Next(s, LoadRead);
    FreshPushRefusedIff(s);
    LoadInv(s, LoadRead);
    WriteInv(t, x);
    PublishInv(Next(t, Write(x)));
  }

  // The consumer's pass: load the write cursor, take, release.
  function Pop<T>(s: Ring<T>): Ring<T>
    requires |s.data| == SIZE
  {
    Next(Next(Next(s, LoadWrite), Take), Release)
  }

  lemma {:induction false} PopInv<T>(s: Ring<T>)
    requires Inv(s) && s.taken.None?
    ensures Inv(Pop(s)) && Pop(s).taken.None? && Pop(s).writing == s.writing && Pop(s).pushed == s.pushed
    ensures Pop(s).w == s.w && Pop(s).data == s.data
    ensures s.r == s.w <==> |s.popped| == |s.pushed|
    ensures if |s.popped| == |s.pushed| then Pop(s).popped == s.popped && Pop(s).r == s.r
            else && s.data[s.r % SIZE] == s.pushed[|s.popped|]
                 && Pop(s).popped == s.popped + [s.pushed[|s.popped|]] && Pop(s).r == (s.r + 1) % U32
  {
    var t := Next(s, LoadWrite);
    LoadInv(s, LoadWrite);
    EmptyIff(t);
    TakeInv(t);
    ReleaseInv(Next(t, Take));
  }
}
