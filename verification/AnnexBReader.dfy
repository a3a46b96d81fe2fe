/**
 * H264Reader::ReadOneNalu (test/reader.cpp:92-170): reads a byte stream in the format of Annex B,
 * section B.1.1 of ITU-T H.264, wrapping at end of file, and delivers one slice per call.
 */
module AnnexBReader {

  newtype byte = x: int | 0 <= x < 256

  const MAX_BUFFER_SIZE := 1024 * 1024

  function StartCode(n: nat): (s: seq<byte>)
    requires n == 3 || n == 4
    ensures |s| == n
  {
    if n == 4 then [0, 0, 0, 1] else [0, 0, 1]
  }

  /** What the loop body works on: the buffered bytes `buf[..index]`, the cached parameter sets,
      the stop flag and the packets passed to the callback. */
  datatype State = State(buf: seq<byte>, sps: seq<byte>, pps: seq<byte>, stop: bool, delivered: seq<seq<byte>>)

  /** A unit that was terminated by a start code of `n` bytes; its type (table 7-1 of ITU-T H.264) is
      `m_buf[0] & 0x1F`. */
  function Recognise(s: State, unit: seq<byte>, first: byte, n: nat): State
    requires n == 3 || n == 4
  {
    var data := StartCode(n) + unit;
    match first % 32
    case 1 => s.(buf := [], stop := true, delivered := s.delivered + [data])
    case 5 => s.(buf := [], stop := true, delivered := s.delivered + [s.sps + s.pps + data])
    case 7 => s.(buf := [], sps := data)
    case 8 => s.(buf := [], pps := data)
    case _ => s.(buf := [])
  }

  /** With byte `ch` the buffer, longer than 4 bytes by then, ends in a start code of `n` bytes. */
  predicate Completes(buf: seq<byte>, ch: byte, n: nat)
    requires n == 3 || n == 4
  {
    var k := |buf|;
    k > 3 && ch == 1 && buf[k - 1] == 0 && buf[k - 2] == 0 && (n == 4 ==> buf[k - 3] == 0)
  }

  /** The loop body for one byte that is not end of file. */
  function Accept(s: State, ch: byte): State {
    if |s.buf| >= MAX_BUFFER_SIZE - 1 then s.(stop := true)
    else if Completes(s.buf, ch, 4) then Recognise(s, s.buf[..|s.buf| - 3], s.buf[0], 4)
    else if Completes(s.buf, ch, 3) then Recognise(s, s.buf[..|s.buf| - 2], s.buf[0], 3)
    else s.(buf := s.buf + [ch])
  }

  /** The file position and the rest of the state. */
  datatype Machine = Machine(pos: nat, st: State)

  /** One round of the while loop. */
  function Tick(file: seq<byte>, m: Machine): Machine {
    if m.pos >= |file| then Machine(0, m.st)
    else Machine(m.pos + 1, Accept(m.st, file[m.pos]))
  }

  /** The state after `n` rounds, or when the loop stopped before that. */
  function Ticks(file: seq<byte>, m: Machine, n: nat): Machine
    decreases n
  {
    if n == 0 || m.st.stop then m else Ticks(file, Tick(file, m), n - 1)
  }

  /** The call returns. */
  ghost predicate Halts(file: seq<byte>, m: Machine) { exists n: nat :: Ticks(file, m, n).st.stop }

  lemma {:induction false} TicksAgree(file: seq<byte>, m: Machine, i: nat, j: nat)
    requires Ticks(file, m, i).st.stop && Ticks(file, m, j).st.stop
    ensures Ticks(file, m, i) == Ticks(file, m, j)
    decreases i
  {
    if !m.st.stop { TicksAgree(file, Tick(file, m), i - 1, j - 1); }
  }

  lemma {:induction false} TicksAdd(file: seq<byte>, m: Machine, i: nat, j: nat)
    ensures Ticks(file, m, i + j) == Ticks(file, Ticks(file, m, i), j)
    decreases i
  {
    if i > 0 && !m.st.stop { TicksAdd(file, Tick(file, m), i - 1, j); }
  }

  lemma StopStays(file: seq<byte>, m: Machine, i: nat, j: nat)
    requires i <= j && Ticks(file, m, i).st.stop
    ensures Ticks(file, m, j).st.stop
  {
    TicksAdd(file, m, i, j - i);
  }

  /** The state in which a call that returns leaves the reader. */
  ghost function Call(file: seq<byte>, m: Machine): Machine
    requires Halts(file, m)
  {
    var n: nat :| Ticks(file, m, n).st.stop;
    Ticks(file, m, n)
  }

  /** The members that survive a call. */
  datatype Kept = Kept(pos: nat, sps: seq<byte>, pps: seq<byte>, delivered: seq<seq<byte>>)

  /** A call starts with an empty buffer. */
  function Begin(k: Kept): Machine { Machine(k.pos, State([], k.sps, k.pps, false, k.delivered)) }

  function End(m: Machine): Kept { Kept(m.pos, m.st.sps, m.st.pps, m.st.delivered) }

  class H264Reader {
    const file: seq<byte>
    var pos: nat
    var buf: array<byte>
    var sps: seq<byte>
    var pps: seq<byte>
    var delivered: seq<seq<byte>>  // what the data callback received

    ghost predicate Valid()
      reads this
    {
      buf.Length == MAX_BUFFER_SIZE
    }

    ghost function Members(): Kept
      reads this
    {
      Kept(pos, sps, pps, delivered)
    }

    constructor (contents: seq<byte>)
      ensures Valid() && fresh(buf) && file == contents && Members() == Kept(0, [], [], [])
    {
      file := contents;
      pos, sps, pps, delivered := 0, [], [], [];
      buf := new byte[MAX_BUFFER_SIZE](_ => 0);
    }

    /** Returns exactly when the loop comes to an end; `buf` is never indexed out of range. */
    method ReadOneNalu()
      requires Valid() && Halts(file, Begin(Members()))
      modifies this, buf
      ensures Valid() && buf == old(buf)
      ensures Members() == End(Call(file, old(Begin(Members()))))
    {
      ghost var m0 := Begin(Members());
      ghost var last: nat :| Ticks(file, m0, last).st.stop;
      ghost var k: nat := 0;
      var index, stop := 0, false;
      while !stop
        invariant Valid() && buf == old(buf)
        invariant 0 <= index <= MAX_BUFFER_SIZE - 1
        invariant Ticks(file, m0, k) == Machine(pos, State(buf[..index], sps, pps, stop, delivered))
        decreases last - k, !stop
      {
        NotYet(file, m0, k, last);
        NextTick(file, m0, k);
        index, stop := Round(index);
        k := k + 1;
      }
      TicksAgree(file, m0, k, last);
      CallIs(file, m0, k);
    }

    /** The loop body. */
    method Round(index: nat) returns (next: nat, stop: bool)
      requires Valid() && index <= MAX_BUFFER_SIZE - 1
      modifies this, buf
      ensures Valid() && buf == old(buf) && next <= MAX_BUFFER_SIZE - 1
      ensures Machine(pos, State(buf[..next], sps, pps, stop, delivered)) ==
              Tick(file, old(Machine(pos, State(buf[..index], sps, pps, false, delivered))))
    {
      next, stop := index, false;
      if pos >= |file| {
        pos := 0;
        return;
      }
      var ch := file[pos];
      pos := pos + 1;
      if index >= MAX_BUFFER_SIZE - 1 {
        stop := true;
        return;
      }
      next, stop := Store(index, ch);
    }

    method Store(index: nat, ch: byte) returns (next: nat, stop: bool)
      requires Valid() && index < MAX_BUFFER_SIZE - 1
      modifies this`sps, this`pps, this`delivered, buf
      ensures Valid() && next <= MAX_BUFFER_SIZE - 1
      ensures State(buf[..next], sps, pps, stop, delivered) ==
              Accept(old(State(buf[..index], sps, pps, false, delivered)), ch)
    {
      ghost var s := State(buf[..index], sps, pps, false, delivered);
      buf[index] := ch;
      assert buf[..index] == s.buf && buf[..index + 1] == s.buf + [ch];
      next, stop := index + 1, false;
      if index > 3 && buf[index] == 1 && buf[index - 1] == 0 && buf[index - 2] == 0 && buf[index - 3] == 0 {
        assert s.buf[..index - 3] == buf[..index - 3];
        stop := Dispatch(4, index - 3);
        next := 0;
      } else if index > 3 && buf[index] == 1 && buf[index - 1] == 0 && buf[index - 2] == 0 {
        assert s.buf[..index - 2] == buf[..index - 2];
        stop := Dispatch(3, index - 2);
        next := 0;
      }
    }

    /** The switch on the unit type. */
    method Dispatch(n: nat, length: nat) returns (stop: bool)
      requires Valid() && (n == 3 || n == 4) && 1 <= length <= buf.Length
      modifies this`sps, this`pps, this`delivered
      ensures State([], sps, pps, stop, delivered) ==
              Recognise(State([], old(sps), old(pps), false, old(delivered)), buf[..length], buf[0], n)
    {
      stop := false;
      var data := StartCode(n) + buf[..length];
      match buf[0] % 32
      case 1 =>
        delivered := delivered + [data];
        stop := true;
      case 5 =>
        delivered := delivered + [sps + pps + data];
        stop := true;
      case 7 => sps := data;
      case 8 => pps := data;
      case _ =>
    }
  }

  lemma NextTick(file: seq<byte>, m: Machine, k: nat)
    requires !Ticks(file, m, k).st.stop
    ensures Ticks(file, m, k + 1) == Tick(file, Ticks(file, m, k))
  {
    TicksAdd(file, m, k, 1);
    assert Ticks(file, Ticks(file, m, k), 1) == Ticks(file, Tick(file, Ticks(file, m, k)), 0);
  }

  lemma NotYet(file: seq<byte>, m: Machine, k: nat, last: nat)
    requires !Ticks(file, m, k).st.stop && Ticks(file, m, last).st.stop
    ensures k < last
  {
    if last <= k {
      StopStays(file, m, last, k);
    }
  }

  lemma CallIs(file: seq<byte>, m: Machine, k: nat)
    requires Ticks(file, m, k).st.stop
    ensures Halts(file, m) && Call(file, m) == Ticks(file, m, k)
  {
    var n: nat :| Ticks(file, m, n).st.stop && Call(file, m) == Ticks(file, m, n);
    TicksAgree(file, m, n, k);
  }
}
