/** The growable stream buffer: one array with a get area and a put area that advance,
    are shifted down and grow, refining a bounded first-in first-out queue of bytes. */
module Streambufs {

  type Byte = b: int | 0 <= b < 256

  /** The characters of the stream, and the end-of-file value. */
  datatype IntType = Eof | Char(c: Byte)

  const BUFFER_DELTA := 128

  function Min(a: nat, b: nat): nat {
    if a < b then a else b
  }

  function Max(a: nat, b: nat): nat {
    if a < b then b else a
  }

  // ---------------------------------------------------------------- the queue

  /** What a user sees: the bytes that can be read, the bytes of the output sequence that
      can be committed, and the maximum size; and the gap of consumed bytes before them. */
  datatype Queue = Queue(gap: nat, held: seq<Byte>, spare: seq<Byte>, maxSize: nat) {
    ghost predicate Valid() {
      PutEnd() <= maxSize
    }

    function PutEnd(): nat {
      gap + |held| + |spare|
    }
  }

  datatype Event =
    | Prepare(n: nat)
    | FailedPrepare(n: nat)
    | Fill(bytes: seq<Byte>)
    | Commit(n: nat)
    | Consume(n: nat)
    | Peek
    | Take
    | Append(c: Byte)
    | FailedAppend(c: Byte)

  /** How much an append to a full put area asks for. */
  function Growth(s: Queue): nat
    requires s.Valid()
  {
    Min(BUFFER_DELTA, s.maxSize - |s.held|)
  }

  /** What is held after the bytes have been moved down by the gap and the pointers have
      stayed: the bytes after the first `gap`, then the last `gap` once more. */
  function Overlaid(held: seq<Byte>, gap: nat): seq<Byte> {
    if |held| <= gap then held else held[gap..] + held[|held| - gap..]
  }

  /** Event e takes s to t, appending and removing these bytes.  Preparing and appending may
      change what the output sequence holds, but not its size. */
  ghost predicate Does(s: Queue, e: Event, t: Queue, appended: seq<Byte>, removed: seq<Byte>)
    requires s.Valid()
  {
    && t.maxSize == s.maxSize
    && match e
       case Prepare(n) =>
         && |s.held| + n <= s.maxSize && t.held == s.held && appended == [] && removed == []
         && if n <= |s.spare| then t == s else t.gap == 0 && t.PutEnd() == Max(s.PutEnd(), |s.held| + n)
       case FailedPrepare(n) =>
         && |s.held| + n > s.maxSize && t == s.(held := Overlaid(s.held, s.gap))
         && appended == [] && removed == []
       case Fill(bytes) =>
         && |bytes| <= |s.spare| && t == s.(spare := bytes + s.spare[|bytes|..])
         && appended == [] && removed == []
       case Commit(n) =>
         var m := Min(n, |s.spare|);
         && appended == s.spare[..m] && removed == []
         && t == s.(held := s.held + appended, spare := s.spare[m..])
       case Consume(n) =>
         var m := Min(n, |s.held|);
         && removed == s.held[..m] && appended == []
         && t == s.(gap := s.gap + m, held := s.held[m..])
       case Peek => t == s && appended == [] && removed == []
       case Take =>
         && |s.held| > 0 && removed == [s.held[0]] && appended == []
         && t == s.(gap := s.gap + 1, held := s.held[1..])
       case Append(c) =>
         && |s.held| < s.maxSize && appended == [c] && removed == [] && t.held == s.held + [c]
         && if |s.spare| > 0 then t == s.(held := t.held, spare := s.spare[1..])
            else t.gap == 0 && t.PutEnd() == Max(s.PutEnd(), |s.held| + Growth(s))
       case FailedAppend(c) => |s.held| == s.maxSize && t == s && appended == [] && removed == []
  }

  /** One event of a run. */
  datatype Moment = Moment(event: Event, after: Queue, appended: seq<Byte>, removed: seq<Byte>)

  ghost predicate IsRun(s: Queue, run: seq<Moment>)
    requires s.Valid()
    decreases run
  {
    run == [] ||
    (Does(s, run[0].event, run[0].after, run[0].appended, run[0].removed)
     && run[0].after.Valid() && IsRun(run[0].after, run[1..]))
  }

  /** A failed prepare leaves every content as it is: no gap, or one at least as long as
      what is held. */
  predicate Harmless(s: Queue, e: Event) {
    e.FailedPrepare? ==> s.gap == 0 || |s.held| <= s.gap
  }

  ghost predicate HarmlessRun(s: Queue, run: seq<Moment>)
    decreases run
  {
    run == [] || (Harmless(s, run[0].event) && HarmlessRun(run[0].after, run[1..]))
  }

  ghost function Appended(run: seq<Moment>): seq<Byte> {
    if run == [] then [] else run[0].appended + Appended(run[1..])
  }

  ghost function Removed(run: seq<Moment>): seq<Byte> {
    if run == [] then [] else run[0].removed + Removed(run[1..])
  }

  ghost function End(s: Queue, run: seq<Moment>): Queue {
    if run == [] then s else run[|run| - 1].after
  }

  lemma EventConserves(s: Queue, e: Event, t: Queue, appended: seq<Byte>, removed: seq<Byte>)
    requires s.Valid() && Does(s, e, t, appended, removed)
    ensures t.maxSize == s.maxSize && |s.held| + |appended| == |removed| + |t.held|
    ensures Harmless(s, e) ==> s.held + appended == removed + t.held
  {
  }

  function GetEnd(s: Queue): nat {
    s.gap + |s.held|
  }

  /** The three pointers (where reading starts, where it ends and writing starts, and where
      the put area ends) as each event moves them: committing and consuming stop at the
      next pointer, and room is made only if there is too little, by moving the held bytes to
      the start and growing the put area if that is not enough. */
  lemma EventMovesPointers(s: Queue, e: Event, t: Queue, appended: seq<Byte>, removed: seq<Byte>)
    requires s.Valid() && Does(s, e, t, appended, removed)
    ensures e.Commit? ==> t.gap == s.gap && t.PutEnd() == s.PutEnd()
    ensures e.Commit? ==> GetEnd(t) == if GetEnd(s) + e.n <= s.PutEnd() then GetEnd(s) + e.n else s.PutEnd()
    ensures e.Consume? ==> GetEnd(t) == GetEnd(s) && t.PutEnd() == s.PutEnd()
    ensures e.Consume? ==> t.gap == if s.gap + e.n <= GetEnd(s) then s.gap + e.n else GetEnd(s)
    ensures e.Take? ==> t.gap == s.gap + 1 && GetEnd(t) == GetEnd(s) && t.PutEnd() == s.PutEnd()
    ensures e.Prepare? ==> AfterRoom(s, e.n, t.gap, GetEnd(t), t.PutEnd())
    ensures e.Append? && |s.spare| > 0 ==> t.gap == s.gap && GetEnd(t) == GetEnd(s) + 1 && t.PutEnd() == s.PutEnd()
    ensures e.Append? && s.spare == [] ==>
      AfterRoom(s, if s.maxSize - |s.held| < 128 then s.maxSize - |s.held| else 128, t.gap, GetEnd(t) - 1, t.PutEnd())
    ensures e.Peek? || e.Fill? || e.FailedPrepare? || e.FailedAppend? ==>
      t.gap == s.gap && GetEnd(t) == GetEnd(s) && t.PutEnd() == s.PutEnd()
  {
  }

  /** The pointers after room for n bytes has been made. */
  predicate AfterRoom(s: Queue, n: nat, gptr: nat, pptr: int, epptr: nat) {
    if GetEnd(s) + n <= s.PutEnd() then gptr == s.gap && pptr == GetEnd(s) && epptr == s.PutEnd()
    else gptr == 0 && pptr == |s.held| && epptr == if pptr + n <= s.PutEnd() then s.PutEnd() else pptr + n
  }

  /** Nothing is lost, duplicated or reordered: over every run whose failed prepares are
      harmless, the bytes removed followed by the bytes still held are the bytes held at
      first followed by the bytes appended. */
  lemma {:induction false} RunConserves(s: Queue, run: seq<Moment>)
    requires s.Valid() && IsRun(s, run) && HarmlessRun(s, run)
    ensures Removed(run) + End(s, run).held == s.held + Appended(run)
    decreases run
  {
    hide Does, Harmless;
    if run == [] {
    } else {
      var m, rest := run[0], run[1..];
      EventConserves(s, m.event, m.after, m.appended, m.removed);
      RunConserves(m.after, rest);
      Regroup(s.held, m.appended, Appended(rest), m.removed, m.after.held, Removed(rest), End(m.after, rest).held);
    }
  }

  lemma Regroup(held: seq<Byte>, a: seq<Byte>, as': seq<Byte>, r: seq<Byte>, next: seq<Byte>, rs: seq<Byte>,
                last: seq<Byte>)
    requires held + a == r + next && rs + last == next + as'
    ensures (r + rs) + last == held + (a + as')
  {
    assert (r + rs) + last == r + (rs + last);
    assert (r + next) + as' == r + (next + as');
    assert (held + a) + as' == held + (a + as');
  }

  /** Over every run, also with failed prepares that garble the bytes, their number is
      right and never more than the maximum is held. */
  lemma {:induction false} RunKeepsCount(s: Queue, run: seq<Moment>)
    requires s.Valid() && IsRun(s, run)
    ensures |Removed(run)| + |End(s, run).held| == |s.held| + |Appended(run)|
    ensures |End(s, run).held| <= s.maxSize == End(s, run).maxSize
    decreases run
  {
    hide Does, Harmless;
    if run == [] {
    } else {
      var m := run[0];
      EventConserves(s, m.event, m.after, m.appended, m.removed);
      RunKeepsCount(m.after, run[1..]);
    }
  }

  /** The documented use: prepare room, fill it, commit what was filled. */
  lemma FilledBytesArrive(s: Queue, n: nat, bytes: seq<Byte>, p: Queue, f: Queue, t: Queue, appended: seq<Byte>)
    requires |bytes| <= n
    requires s.Valid() && p.Valid() && f.Valid()
    requires Does(s, Prepare(n), p, [], []) && Does(p, Fill(bytes), f, [], [])
    requires Does(f, Commit(|bytes|), t, appended, [])
    ensures appended == bytes && t.held == s.held + bytes
  {
  }

  // ---------------------------------------------------------------- a failed reserve

  /** The array after bytes [g, p) have been moved to its start. */
  function ShiftedDown(b: seq<Byte>, g: nat, p: nat): seq<Byte>
    requires g <= p <= |b|
  {
    b[g..p] + b[p - g..]
  }

  lemma ShiftedDownStarts(b: seq<Byte>, g: nat, p: nat)
    requires g <= p <= |b|
    ensures |ShiftedDown(b, g, p)| == |b| && ShiftedDown(b, g, p)[..p - g] == b[g..p]
    ensures g == 0 ==> ShiftedDown(b, g, p) == b
  {
  }

  /** Left in place, the pointers then hold the overlaid bytes. */
  lemma ShiftedDownHolds(b: seq<Byte>, g: nat, p: nat)
    requires g <= p <= |b|
    ensures |ShiftedDown(b, g, p)| == |b|
    ensures ShiftedDown(b, g, p)[g..p] == Overlaid(b[g..p], g)
    ensures ShiftedDown(b, g, p)[p..] == b[p..]
  {
  }

  /** A failed prepare keeps the held bytes, whatever they are, exactly when it is
      harmless. */
  lemma FailedPrepareKeepsHeldIff(gap: nat, size: nat)
    ensures (forall held: seq<Byte> :: |held| == size ==> Overlaid(held, gap) == held)
      <==> gap == 0 || size <= gap
  {
    if 0 < gap < size {
      var held: seq<Byte> := seq(size, i => if i == gap then 1 else 0);
      assert Overlaid(held, gap)[0] == held[gap] == 1 && held[0] == 0;
    } else {
      forall held: seq<Byte> | |held| == size
        ensures Overlaid(held, gap) == held
      {
      }
    }
  }

  // ---------------------------------------------------------------- the buffer

  lemma PrepareDone(s: Queue, t: Queue, n: nat)
    requires s.Valid()
    ensures t.maxSize == s.maxSize && t.held == s.held && |s.held| + n <= s.maxSize
      && (if n <= |s.spare| then t == s else t.gap == 0 && t.PutEnd() == Max(s.PutEnd(), |s.held| + n))
      ==> Does(s, Prepare(n), t, [], [])
  {
  }

  lemma PrepareFailed(s: Queue, t: Queue, n: nat)
    requires s.Valid() && |s.held| + n > s.maxSize && t == s.(held := Overlaid(s.held, s.gap))
    ensures Does(s, FailedPrepare(n), t, [], [])
  {
  }

  lemma CommitDone(s: Queue, t: Queue, n: nat)
    requires s.Valid()
    requires var m := Min(n, |s.spare|);
      t.held == s.held + s.spare[..m] && t == s.(held := t.held, spare := s.spare[m..])
    ensures Does(s, Commit(n), t, s.spare[..Min(n, |s.spare|)], [])
  {
  }

  lemma ConsumeDone(s: Queue, t: Queue, n: nat)
    requires s.Valid()
    requires var m := Min(n, |s.held|); t == s.(gap := s.gap + m, held := s.held[m..])
    ensures Does(s, Consume(n), t, [], s.held[..Min(n, |s.held|)])
  {
  }

  /** Room was there, or growing made some. */
  ghost predicate MadeRoom(s: Queue, t: Queue)
    requires s.Valid()
  {
    |s.held| < s.maxSize && if |s.spare| > 0 then t == s else Does(s, Prepare(Growth(s)), t, [], [])
  }

  lemma RoomForOne(s: Queue, t: Queue)
    requires s.Valid() && MadeRoom(s, t)
    ensures |t.spare| > 0
  {
  }

  lemma AppendDone(s: Queue, t: Queue, u: Queue, c: Byte)
    requires s.Valid() && MadeRoom(s, t) && |t.spare| > 0
    requires u == Queue(t.gap, t.held + [c], t.spare[1..], t.maxSize)
    ensures Does(s, Append(c), u, [c], [])
  {
  }

  lemma AppendFailed(s: Queue, t: Queue, n: nat, c: Byte)
    requires s.Valid() && |s.held| == s.maxSize && Does(s, FailedPrepare(n), t, [], [])
    ensures Does(s, FailedAppend(c), t, [], [])
  {
  }

  /** Moves n bytes of b down to its start; the areas may overlap. */
  method MoveDown(b: array<Byte>, from: nat, n: nat)
    requires from + n <= b.Length
    modifies b
    ensures b[..] == ShiftedDown(old(b[..]), from, from + n)
  {
    forall i | 0 <= i < n {
      b[i] := b[i + from];
    }
  }

  class BasicStreambuf {
    const maxSize: nat
    var buffer: array<Byte>
    var capacity: nat
    var gptr: nat
    var egptr: nat
    var pptr: nat
    var epptr: nat

    ghost predicate Valid()
      reads this
    {
      && gptr <= egptr <= pptr <= epptr <= maxSize
      && buffer.Length == Max(epptr, 1)
      && buffer.Length <= capacity
    }

    ghost function Contents(): (q: Queue)
      reads this, buffer
      requires Valid()
      ensures q.Valid()
    {
      Queue(gptr, buffer[gptr..pptr], buffer[pptr..epptr], maxSize)
    }

    constructor (maximumSize: nat)
      ensures Valid() && fresh(buffer) && maxSize == maximumSize
      ensures Contents().gap == 0 && Contents().held == []
      ensures |Contents().spare| == if maximumSize < 128 then maximumSize else 128
    {
      maxSize := maximumSize;
      var pend := Min(maximumSize, BUFFER_DELTA);
      buffer := new Byte[Max(pend, 1)](_ => 0);
      var c :| c >= Max(pend, 1);
      capacity := c;
      gptr, egptr, pptr, epptr := 0, 0, 0, pend;
    }

    /** The size of the input sequence. */
    function Size(): nat
      reads this, buffer
      requires Valid()
      ensures Size() == |Contents().held| <= maxSize
    {
      pptr - gptr
    }

    /** Resizes the vector; its capacity never shrinks. */
    method Resize(n: nat)
      requires buffer.Length <= n && buffer.Length <= capacity
      modifies this`buffer, this`capacity
      ensures fresh(buffer) && buffer.Length == n <= capacity && old(capacity) <= capacity
      ensures buffer[..old(buffer.Length)] == old(buffer[..])
    {
      var grown := new Byte[n](_ => 0);
      forall i | 0 <= i < buffer.Length {
        grown[i] := buffer[i];
      }
      buffer := grown;
      var c :| c >= n && c >= capacity;
      capacity := c;
    }

    /** Makes room for n bytes in the put area.  Throws exactly when the maximum would be
        exceeded, and then with the bytes moved but the pointers as they were. */
    method Reserve(n: nat) returns (thrown: bool)
      requires Valid()
      modifies this`buffer, this`capacity, this`gptr, this`egptr, this`pptr, this`epptr, buffer
      ensures Valid() && (buffer == old(buffer) || fresh(buffer))
      ensures thrown <==> |old(Contents()).held| + n > maxSize
      ensures !thrown ==> Does(old(Contents()), Event.Prepare(n), Contents(), [], [])
      ensures thrown ==> Does(old(Contents()), Event.FailedPrepare(n), Contents(), [], [])
      ensures thrown ==> buffer == old(buffer) && buffer[..] == ShiftedDown(old(buffer[..]), old(gptr), old(pptr))
    {
      hide Does, ShiftedDown, Overlaid;
      var gnext, pnext, pend := gptr, pptr, epptr;
      ghost var s := Contents();
      ghost var b := buffer[..];
      PrepareDone(s, s, n);
      ShiftedDownStarts(b, gptr, pptr);
      assert b[gptr..pptr] == s.held;
      if n <= pend - pnext {
        return false;
      }
      if gnext > 0 {
        pnext := pnext - gnext;
        MoveDown(buffer, gnext, pnext);
      }
      assert buffer[..] == ShiftedDown(b, gptr, pptr);
      assert buffer[..pnext] == s.held;
      if n > pend - pnext {
        if n <= maxSize && pnext <= maxSize - n {
          pend := pnext + n;
          Resize(Max(pend, 1));
        } else {
          FailedContents(s, b);
          PrepareFailed(s, Contents(), n);
          return true;
        }
      }
      assert buffer[..pnext] == s.held;
      gptr, egptr := 0, pnext;
      pptr, epptr := pnext, pend;
      assert Contents().held == s.held;
      PrepareDone(s, Contents(), n);
      return false;
    }

    /** The state a throwing reserve leaves. */
    lemma FailedContents(s: Queue, b: seq<Byte>)
      requires Valid() && |b| == buffer.Length
      requires s == Queue(gptr, b[gptr..pptr], b[pptr..epptr], maxSize)
      requires buffer[..] == ShiftedDown(b, gptr, pptr)
      ensures Contents() == s.(held := Overlaid(s.held, s.gap))
    {
      hide ShiftedDown, Overlaid;
      var moved := buffer[..];
      ShiftedDownHolds(b, gptr, pptr);
      assert buffer[gptr..pptr] == moved[gptr..pptr];
      assert buffer[pptr..epptr] == moved[pptr..][..epptr - pptr];
      assert b[pptr..epptr] == b[pptr..][..epptr - pptr];
    }

    method Prepare(n: nat) returns (thrown: bool)
      requires Valid()
      modifies this`buffer, this`capacity, this`gptr, this`egptr, this`pptr, this`epptr, buffer
      ensures Valid() && (buffer == old(buffer) || fresh(buffer))
      ensures thrown <==> |old(Contents()).held| + n > maxSize
      ensures !thrown ==> Does(old(Contents()), Event.Prepare(n), Contents(), [], [])
      ensures !thrown ==> n <= |Contents().spare|
      ensures thrown ==> Does(old(Contents()), Event.FailedPrepare(n), Contents(), [], [])
    {
      thrown := Reserve(n);
    }

    /** The user writes bytes into the prepared region. */
    method Fill(bytes: seq<Byte>)
      requires Valid() && |bytes| <= epptr - pptr
      modifies buffer
      ensures Does(old(Contents()), Event.Fill(bytes), Contents(), [], [])
    {
      forall i | 0 <= i < |bytes| {
        buffer[pptr + i] := bytes[i];
      }
    }

    method Commit(n: nat) returns (ghost appended: seq<Byte>)
      requires Valid()
      modifies this`pptr, this`egptr
      ensures Valid() && Does(old(Contents()), Event.Commit(n), Contents(), appended, [])
    {
      hide Does;
      ghost var s := Contents();
      var m := Min(n, epptr - pptr);
      appended := s.spare[..m];
      pptr := pptr + m;
      egptr := pptr;
      CommitDone(s, Contents(), n);
    }

    method Consume(n: nat) returns (ghost removed: seq<Byte>)
      requires Valid()
      modifies this`gptr, this`egptr
      ensures Valid() && Does(old(Contents()), Event.Consume(n), Contents(), [], removed)
    {
      hide Does;
      if egptr < pptr {
        egptr := pptr;
      }
      var m := n;
      if gptr + m > pptr {
        m := pptr - gptr;
      }
      ghost var s := Contents();
      removed := s.held[..m];
      gptr := gptr + m;
      ConsumeDone(s, Contents(), n);
    }

    /** Makes everything written so far readable and looks at the first byte. */
    method Underflow() returns (r: IntType)
      requires Valid()
      modifies this`egptr
      ensures Valid() && Does(old(Contents()), Event.Peek, Contents(), [], [])
      ensures r == if Contents().held == [] then Eof else Char(Contents().held[0])
      ensures r.Char? ==> egptr == pptr
    {
      if gptr < pptr {
        egptr := pptr;
        return Char(buffer[gptr]);
      } else {
        return Eof;
      }
    }

    /** Stores a byte at the put pointer and advances it. */
    method Put(c: Byte)
      requires Valid() && pptr < epptr
      modifies this`pptr, buffer
      ensures Valid()
      ensures var s := old(Contents()); Contents() == Queue(s.gap, s.held + [c], s.spare[1..], maxSize)
    {
      buffer[pptr] := c;
      pptr := pptr + 1;
    }

    /** Appends one byte, growing if the put area is full; end of file appends nothing. */
    method Overflow(c: IntType) returns (r: IntType, thrown: bool)
      requires Valid()
      modifies this`buffer, this`capacity, this`gptr, this`egptr, this`pptr, this`epptr, buffer
      ensures Valid() && (buffer == old(buffer) || fresh(buffer))
      ensures thrown <==> c.Char? && |old(Contents()).held| == maxSize
      ensures c.Char? && !thrown ==> r == c && Does(old(Contents()), Event.Append(c.c), Contents(), [c.c], [])
      ensures thrown ==> Does(old(Contents()), Event.FailedAppend(c.c), Contents(), [], [])
      ensures c.Eof? ==> r.Char? && Contents() == old(Contents())
    {
      hide Does;
      if c.Char? {
        ghost var s := Contents();
        if pptr == epptr {
          thrown := Grow();
          if thrown {
            AppendFailed(s, Contents(), BUFFER_DELTA, c.c);
            return Eof, true;
          }
        }
        ghost var t := Contents();
        RoomForOne(s, t);
        Put(c.c);
        AppendDone(s, t, Contents(), c.c);
        return c, false;
      }
      return Char(0), false;
    }

    /** Makes room in a full put area for one byte or, if the maximum allows, for 128. */
    method Grow() returns (thrown: bool)
      requires Valid() && pptr == epptr
      modifies this`buffer, this`capacity, this`gptr, this`egptr, this`pptr, this`epptr, buffer
      ensures Valid() && (buffer == old(buffer) || fresh(buffer))
      ensures thrown <==> |old(Contents()).held| == maxSize
      ensures !thrown ==> MadeRoom(old(Contents()), Contents())
      ensures thrown ==> Does(old(Contents()), Event.FailedPrepare(BUFFER_DELTA), Contents(), [], [])
    {
      hide Does;
      var bufferSize := pptr - gptr;
      if bufferSize < maxSize && maxSize - bufferSize < BUFFER_DELTA {
        thrown := Reserve(maxSize - bufferSize);
      } else {
        thrown := Reserve(BUFFER_DELTA);
      }
    }

    /** Reads one byte as a stream does: from the get area, or after underflow. */
    method Take() returns (r: IntType)
      requires Valid()
      modifies this`gptr, this`egptr
      ensures Valid()
      ensures r.Eof? <==> old(Contents()).held == []
      ensures r.Char? ==> Does(old(Contents()), Event.Take, Contents(), [], [r.c])
      ensures r.Eof? ==> Contents() == old(Contents())
    {
      if gptr == egptr {
        r := Underflow();
        if r.Eof? {
          return;
        }
      }
      r := Char(buffer[gptr]);
      gptr := gptr + 1;
    }

    /** The preferred size for reading: at most asked for and never too much to prepare.  Up
        to 512 bytes are granted as far as the maximum allows, and more only into the
        capacity already there; otherwise it is all that is asked for or allowed. */
    function ReadSizeHelper(m: nat): (n: nat)
      reads this, buffer
      requires Valid()
      ensures n <= m && pptr - gptr + n <= maxSize
      ensures n == 0 <==> m == 0 || pptr - gptr == maxSize
      ensures m <= 512 ==> n == m || n == maxSize - (pptr - gptr)
      ensures n > 512 ==> n <= capacity - (pptr - gptr)
      ensures n < m && n < maxSize - (pptr - gptr) ==> n >= 512 && n >= capacity - (pptr - gptr)
    {
      var size := pptr - gptr;
      Min(Max(512, capacity - size), Min(m, maxSize - size))
    }

    /** Preparing the preferred size never throws. */
    method PrepareForRead(m: nat) returns (n: nat)
      requires Valid()
      modifies this`buffer, this`capacity, this`gptr, this`egptr, this`pptr, this`epptr, buffer
      ensures Valid() && (buffer == old(buffer) || fresh(buffer))
      ensures n <= m && Does(old(Contents()), Event.Prepare(n), Contents(), [], [])
    {
      n := ReadSizeHelper(m);
      var thrown := Prepare(n);
    }
  }

  /** The garbling is reachable: three bytes written to a buffer of three, one of them
      read, and a prepare that asks for too much turns the bytes 2, 3 into 3, 3. */
  method FailedPrepareGarbles() returns (before: seq<Byte>, after: seq<Byte>)
    ensures before == [2, 3] && after == [3, 3]
  {
    var b := new BasicStreambuf(3);
    b.Fill([1, 2, 3]);
    ghost var appended := b.Commit(3);
    assert b.Contents().held == [1, 2, 3];
    ghost var removed := b.Consume(1);
    before := b.buffer[b.gptr..b.pptr];
    assert b.Contents().held == before;
    var thrown := b.Prepare(2);
    after := b.buffer[b.gptr..b.pptr];
    assert b.Contents().held == after;
  }
}
