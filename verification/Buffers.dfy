/**
  The byte buffer: a growing array with a read cursor and a write cursor of its own, two byte
  orders, and a flag that makes reads run backward.  Bytes written are described by their
  positions; each read is described by what it returns and where it leaves the cursor.
 */
module Buffers {
  import opened Binary

  datatype Error = EndOfFile | NotImplemented | BadValue | DoesNotFit | OutOfRange
  datatype Outcome<+T> = Ok(value: T) | Fail(error: Error)

  /** Everything a buffer holds.  A negative count can take the read cursor before the start. */
  datatype State = State(bytes: seq<Byte>, rpos: int, wpos: nat, endian: Endian, reverse: bool)

  datatype Field =
    | Number(f: Format, v: int)
    | Flag(b: bool)
    | Raw(data: seq<Byte>)
    | CString(data: seq<Byte>)
    | Pascal(f: Format, data: seq<Byte>)

  /** What to read: a field without its value. */
  datatype Shape = NumberOf(f: Format) | FlagOf | RawOf(n: int) | CStringOf | PascalOf(f: Format)

  // ----- writing -----

  function Max(a: nat, b: nat): nat {
    if a < b then b else a
  }

  function ByteOf(old_: seq<Byte>, at: nat, b: seq<Byte>, i: nat): Byte {
    if at <= i < at + |b| then b[i - at] else if i < |old_| then old_[i] else 0
  }

  /** `b` laid over the bytes from `at` on; gaps are zero. */
  function Overlay(bytes: seq<Byte>, at: nat, b: seq<Byte>): (r: seq<Byte>)
    ensures |r| == Max(|bytes|, at + |b|)
    ensures forall i :: 0 <= i < |r| ==> r[i] == ByteOf(bytes, at, b, i)
  {
    seq(Max(|bytes|, at + |b|), i requires 0 <= i => ByteOf(bytes, at, b, i))
  }

  function Wrote(s: State, b: seq<Byte>): State {
    s.(bytes := Overlay(s.bytes, s.wpos, b), wpos := s.wpos + |b|)
  }

  lemma OverlayTwice(bytes: seq<Byte>, at: nat, a: seq<Byte>, b: seq<Byte>)
    ensures Overlay(Overlay(bytes, at, a), at + |a|, b) == Overlay(bytes, at, a + b)
  {
  }

  predicate Writable(x: Field) {
    match x
    case Number(f, v) => Fits(f, v)
    case Pascal(f, data) => Fits(f, |data|)
    case _ => true
  }

  /** The bytes of a field. */
  function Encoded(x: Field, e: Endian): seq<Byte>
    requires Writable(x)
  {
    match x
    case Number(f, v) => Pack(f, v, e)
    case Flag(b) => [if b then 1 else 0]
    case Raw(data) => data
    case CString(data) => data + [0]
    case Pascal(f, data) => Pack(f, |data|, e) + data
  }

  function EncodedAll(xs: seq<Field>, e: Endian): seq<Byte>
    requires forall x <- xs :: Writable(x)
  {
    if xs == [] then [] else EncodedAll(xs[..|xs| - 1], e) + Encoded(xs[|xs| - 1], e)
  }

  /** Where a seek lands, if the origin is known and the place not negative. */
  function Target(offset: int, whence: int, pos: int, len: nat): int {
    if whence == 0 then offset else if whence == 1 then pos + offset else if whence == 2 then len + offset else -1
  }

  // ----- reading -----

  /** Where a slice bound falls: a negative one counts from the end. */
  function Bound(bytes: seq<Byte>, i: int): (n: nat)
    ensures n <= |bytes| && (0 <= i <= |bytes| ==> n == i)
  {
    if i < -|bytes| then 0 else if i < 0 then i + |bytes| else if i <= |bytes| then i else |bytes|
  }

  /** `bytes[i:j]` */
  function Slice(bytes: seq<Byte>, i: int, j: int): seq<Byte> {
    var lo, hi := Bound(bytes, i), Bound(bytes, j);
    if lo <= hi then bytes[lo..hi] else []
  }

  /** The `n` bytes after the cursor. */
  function TakeForward(s: State, n: int): (State, Outcome<seq<Byte>>) {
    if s.rpos + n > |s.bytes| then (s, Fail(EndOfFile))
    else (s.(rpos := s.rpos + n), Ok(Slice(s.bytes, s.rpos, s.rpos + n)))
  }

  /** The `n` bytes before the cursor, as far as there are any. */
  function TakeBack(s: State, n: int): (State, Outcome<seq<Byte>>) {
    if n < 0 then (s, Fail(BadValue))
    else if n > s.rpos then (s, Fail(EndOfFile))
    else (s.(rpos := s.rpos - n), Ok(Slice(s.bytes, s.rpos - n, s.rpos)))
  }

  /** `n` bytes in the direction the flag says; -1 means the rest. */
  function TakeBytes(s: State, n: int): (State, Outcome<seq<Byte>>) {
    if s.reverse then
      if n < 0 then (s, Fail(NotImplemented)) else TakeBack(s, n)
    else TakeForward(s, if n == -1 then |s.bytes| - s.rpos else n)
  }

  /** One number; a slice cut off at either end of the bytes may come up short, and `unpack` refuses. */
  function TakeNumber(s: State, f: Format): (State, Outcome<int>) {
    var (s', r) := if s.reverse then TakeBack(s, Width(f)) else TakeForward(s, Width(f));
    if r.Fail? then (s', Fail(r.error))
    else if |r.value| != Width(f) then (s', Fail(DoesNotFit))
    else (s', Ok(Unpack(f, r.value, s.endian)))
  }

  /** `bytes[i]`: a negative index counts from the end. */
  function At(bytes: seq<Byte>, i: int): Byte
    requires -|bytes| <= i < |bytes|
  {
    if i < 0 then bytes[i + |bytes|] else bytes[i]
  }

  /** The first position from `i` on that holds a zero byte, or the end. */
  function NulAt(bytes: seq<Byte>, i: int): (n: int)
    requires -|bytes| <= i
    ensures n >= i && (i <= |bytes| ==> n <= |bytes|) && (n < |bytes| ==> At(bytes, n) == 0)
    ensures forall j :: i <= j < n && j < |bytes| ==> At(bytes, j) != 0
    decreases |bytes| - i
  {
    if i >= |bytes| || At(bytes, i) == 0 then i else NulAt(bytes, i + 1)
  }

  function TakeCString(s: State): (State, Outcome<seq<Byte>>) {
    if s.reverse then (s, Fail(NotImplemented))
    else if s.rpos < -|s.bytes| then (s, Fail(OutOfRange)) else
    var n := NulAt(s.bytes, s.rpos);
    if n < |s.bytes| then (s.(rpos := n + 1), Ok(Slice(s.bytes, s.rpos, n))) else (s.(rpos := n), Fail(EndOfFile))
  }

  function TakePascal(s: State, f: Format): (State, Outcome<seq<Byte>>) {
    if s.reverse then (s, Fail(NotImplemented)) else
    var (s', r) := TakeNumber(s, f);
    if r.Fail? then (s', Fail(r.error)) else TakeBytes(s', r.value)
  }

  function Take(s: State, x: Shape): (State, Outcome<Field>) {
    match x
    case NumberOf(f) =>
      var (s', r) := TakeNumber(s, f);
      (s', if r.Ok? then Ok(Number(f, r.value)) else Fail(r.error))
    case FlagOf =>
      var (s', r) := TakeNumber(s, U8);
      (s', if r.Ok? then Ok(Flag(r.value != 0)) else Fail(r.error))
    case RawOf(n) =>
      var (s', r) := TakeBytes(s, n);
      (s', if r.Ok? then Ok(Raw(r.value)) else Fail(r.error))
    case CStringOf =>
      var (s', r) := TakeCString(s);
      (s', if r.Ok? then Ok(CString(r.value)) else Fail(r.error))
    case PascalOf(f) =>
      var (s', r) := TakePascal(s, f);
      (s', if r.Ok? then Ok(Pascal(f, r.value)) else Fail(r.error))
  }

  /** Reads the shapes in order, up to the first failure. */
  function TakeAll(s: State, xs: seq<Shape>): (State, Outcome<seq<Field>>) {
    if xs == [] then (s, Ok([])) else
    var (s', r) := TakeAll(s, xs[..|xs| - 1]);
    if r.Fail? then (s', r) else
    var (s'', d) := Take(s', xs[|xs| - 1]);
    (s'', if d.Ok? then Ok(r.value + [d.value]) else Fail(d.error))
  }

  // ----- contexts -----

  /** What a `with` block may do to the cursor. */
  datatype Command =
    | Read(x: Shape)
    | Seek(offset: int, whence: int)
    | Backward(keep: bool, body: seq<Command>)
    | Reversed(keep: bool, body: seq<Command>)
    | Temp(body: seq<Command>)

  /** Runs a command; an exception inside a block still restores what the block saved. */
  function Exec(s: State, c: Command): (State, bool)
    decreases c, 1
  {
    match c
    case Read(x) => var (s', r) := Take(s, x); (s', r.Ok?)
    case Seek(offset, whence) =>
      var t := Target(offset, whence, s.rpos, |s.bytes|);
      if t < 0 then (s, false) else (s.(rpos := t), true)
    case Backward(keep, body) =>
      var (s', ok) := ExecAll(s.(reverse := true), body);
      (s'.(reverse := s.reverse, rpos := if keep then s'.rpos else s.rpos), ok)
    case Reversed(keep, body) =>
      var (s', ok) := ExecAll(s.(reverse := true, rpos := |s.bytes|), body);
      (s'.(reverse := s.reverse, rpos := if keep then s'.rpos else s.rpos), ok)
    case Temp(body) =>
      var (s', ok) := ExecAll(s, body);
      (s'.(rpos := s.rpos), ok)
  }

  function ExecAll(s: State, cs: seq<Command>): (State, bool)
    decreases cs, 0
  {
    if cs == [] then (s, true) else
    var (s', ok) := Exec(s, cs[0]);
    if !ok then (s', false) else ExecAll(s', cs[1..])
  }

  // ----- the buffer -----

  class Buffer {
    var bytes: seq<Byte>
    var rpos: int
    var wpos: nat
    const endian: Endian
    var reverse: bool

    constructor (data: seq<Byte>, endian: Endian)
      ensures Snapshot() == State(data, 0, |data|, endian, false)
    {
      this.bytes, this.rpos, this.wpos, this.endian, this.reverse := data, 0, |data|, endian, false;
    }

    function Snapshot(): State
      reads this
    {
      State(bytes, rpos, wpos, endian, reverse)
    }

    predicate Eof()
      reads this
    {
      rpos >= |bytes|
    }

    method EnsureCapacity(size: nat)
      modifies this
      ensures Snapshot() == old(Snapshot()).(bytes := Overlay(old(bytes), size, []))
    {
      if size > |bytes| {
        bytes := bytes + seq(size - |bytes|, i => 0);
      }
    }

    method WriteRaw(b: seq<Byte>)
      modifies this
      ensures Snapshot() == Wrote(old(Snapshot()), b)
    {
      var end := wpos + |b|;
      EnsureCapacity(end);
      bytes := bytes[..wpos] + b + bytes[end..];
      wpos := end;
      assert bytes == Overlay(old(bytes), old(wpos), b);
    }

    method SeekWrite(offset: int, whence: int) returns (r: Outcome<nat>)
      modifies this
      ensures var t := Target(offset, whence, old(wpos), |old(bytes)|);
              if t < 0 then r == Fail(BadValue) && Snapshot() == old(Snapshot())
              else r == Ok(t) && Snapshot() == old(Snapshot()).(wpos := t)
    {
      var place: int;
      if whence == 0 {
        place := offset;
      } else if whence == 1 {
        place := wpos + offset;
      } else if whence == 2 {
        place := |bytes| + offset;
      } else {
        return Fail(BadValue);
      }
      if place < 0 {
        return Fail(BadValue);
      }
      wpos := place;
      r := Ok(wpos);
    }

    method SeekRead(offset: int, whence: int) returns (r: Outcome<nat>)
      modifies this
      ensures var t := Target(offset, whence, old(rpos), |old(bytes)|);
              if t < 0 then r == Fail(BadValue) && Snapshot() == old(Snapshot())
              else r == Ok(t) && Snapshot() == old(Snapshot()).(rpos := t)
    {
      var place: int;
      if whence == 0 {
        place := offset;
      } else if whence == 1 {
        place := rpos + offset;
      } else if whence == 2 {
        place := |bytes| + offset;
      } else {
        return Fail(BadValue);
      }
      if place < 0 {
        return Fail(BadValue);
      }
      rpos := place;
      r := Ok(rpos);
    }

    method ReadRaw(n: int) returns (r: Outcome<seq<Byte>>)
      modifies this
      ensures (Snapshot(), r) == TakeForward(old(Snapshot()), n)
    {
      if rpos + n > |bytes| {
        return Fail(EndOfFile);
      }
      r := Ok(Slice(bytes, rpos, rpos + n));
      rpos := rpos + n;
    }

    method ReadRawBack(n: int) returns (r: Outcome<seq<Byte>>)
      modifies this
      ensures (Snapshot(), r) == TakeBack(old(Snapshot()), n)
    {
      if n < 0 {
        return Fail(BadValue);
      }
      if rpos - n < 0 {
        return Fail(EndOfFile);
      }
      var start := rpos - n;
      r := Ok(Slice(bytes, start, rpos));
      rpos := start;
    }

    method ReadBytes(n: int) returns (r: Outcome<seq<Byte>>)
      modifies this
      ensures (Snapshot(), r) == TakeBytes(old(Snapshot()), n)
    {
      if reverse {
        if n < 0 {
          return Fail(NotImplemented);
        }
        r := ReadRawBack(n);
      } else if n == -1 {
        r := ReadRaw(|bytes| - rpos);
      } else {
        r := ReadRaw(n);
      }
    }

    method ReadFmt(f: Format) returns (r: Outcome<int>)
      modifies this
      ensures (Snapshot(), r) == TakeNumber(old(Snapshot()), f)
    {
      var raw;
      if !reverse {
        raw := ReadRaw(Width(f));
      } else {
        raw := ReadRawBack(Width(f));
      }
      if raw.Fail? {
        return Fail(raw.error);
      }
      if |raw.value| != Width(f) {
        return Fail(DoesNotFit);
      }
      r := Ok(Unpack(f, raw.value, endian));
    }

    method WriteFmt(f: Format, v: int) returns (ok: bool)
      modifies this
      ensures ok == Fits(f, v)
      ensures Snapshot() == if Fits(f, v) then Wrote(old(Snapshot()), Pack(f, v, endian)) else old(Snapshot())
    {
      ok := Fits(f, v);
      if ok {
        WriteRaw(Pack(f, v, endian));
      }
    }

    method ReadCString() returns (r: Outcome<seq<Byte>>)
      modifies this
      ensures (Snapshot(), r) == TakeCString(old(Snapshot()))
    {
      if reverse {
        return Fail(NotImplemented);
      }
      var start := rpos;
      while rpos < |bytes|
        invariant Snapshot() == old(Snapshot()).(rpos := rpos)
        invariant if start < -|bytes| then rpos == start else rpos >= start && NulAt(bytes, rpos) == NulAt(bytes, start)
        decreases |bytes| - rpos
      {
        if rpos < -|bytes| {
          return Fail(OutOfRange);
        }
        if At(bytes, rpos) == 0 {
          r := Ok(Slice(bytes, start, rpos));
          rpos := rpos + 1;
          return;
        }
        rpos := rpos + 1;
      }
      r := Fail(EndOfFile);
    }

    method ReadPascalBytes(f: Format) returns (r: Outcome<seq<Byte>>)
      modifies this
      ensures (Snapshot(), r) == TakePascal(old(Snapshot()), f)
    {
      if reverse {
        return Fail(NotImplemented);
      }
      var length := ReadFmt(f);
      if length.Fail? {
        return Fail(length.error);
      }
      r := ReadBytes(length.value);
    }

    method WritePascalBytes(f: Format, b: seq<Byte>) returns (ok: bool)
      modifies this
      ensures ok == Fits(f, |b|)
      ensures Snapshot() == if ok then Wrote(old(Snapshot()), Pack(f, |b|, endian) + b) else old(Snapshot())
    {
      ok := WriteFmt(f, |b|);
      if ok {
        WriteRaw(b);
        OverlayTwice(old(bytes), old(wpos), Pack(f, |b|, endian), b);
      }
    }

    method WriteField(x: Field) returns (ok: bool)
      modifies this
      ensures ok == Writable(x)
      ensures Snapshot() == if Writable(x) then Wrote(old(Snapshot()), Encoded(x, endian)) else old(Snapshot())
    {
      ok := true;
      match x {
        case Number(f, v) => ok := WriteFmt(f, v);
        case Flag(b) => WriteRaw([if b then 1 else 0]);
        case Raw(data) => WriteRaw(data);
        case CString(data) => WriteRaw(data + [0]);
        case Pascal(f, data) => ok := WritePascalBytes(f, data);
      }
    }

    method ReadField(x: Shape) returns (r: Outcome<Field>)
      modifies this
      ensures (Snapshot(), r) == Take(old(Snapshot()), x)
    {
      match x {
        case NumberOf(f) =>
          var v := ReadFmt(f);
          r := if v.Ok? then Ok(Number(f, v.value)) else Fail(v.error);
        case FlagOf =>
          var v := ReadFmt(U8);
          r := if v.Ok? then Ok(Flag(v.value != 0)) else Fail(v.error);
        case RawOf(n) =>
          var d := ReadBytes(n);
          r := if d.Ok? then Ok(Raw(d.value)) else Fail(d.error);
        case CStringOf =>
          var d := ReadCString();
          r := if d.Ok? then Ok(CString(d.value)) else Fail(d.error);
        case PascalOf(f) =>
          var d := ReadPascalBytes(f);
          r := if d.Ok? then Ok(Pascal(f, d.value)) else Fail(d.error);
      }
    }

    /** A client that writes fields one after the other. */
    method WriteAll(xs: seq<Field>)
      requires forall x <- xs :: Writable(x)
      modifies this
      ensures Snapshot() == if xs == [] then old(Snapshot()) else Wrote(old(Snapshot()), EncodedAll(xs, endian))
    {
      hide Encoded, Writable;
      for i := 0 to |xs|
        invariant i == 0 ==> Snapshot() == old(Snapshot())
        invariant i > 0 ==> Snapshot() == Wrote(old(Snapshot()), EncodedAll(xs[..i], endian))
      {
        assert xs[..i + 1][..i] == xs[..i];
        var ok := WriteField(xs[i]);
        OverlayTwice(old(bytes), old(wpos), EncodedAll(xs[..i], endian), Encoded(xs[i], endian));
      }
      assert xs[..|xs|] == xs;
    }

    /** A client that reads fields one after the other, up to the first exception. */
    method ReadAll(xs: seq<Shape>) returns (r: Outcome<seq<Field>>)
      modifies this
      ensures (Snapshot(), r) == TakeAll(old(Snapshot()), xs)
    {
      hide Take;
      var values := [];
      for i := 0 to |xs|
        invariant (Snapshot(), Ok(values)) == TakeAll(old(Snapshot()), xs[..i])
      {
        assert xs[..i + 1][..i] == xs[..i];
        var v := ReadField(xs[i]);
        if v.Fail? {
          FailureStays(old(Snapshot()), xs, i + 1);
          return Fail(v.error);
        }
        values := values + [v.value];
      }
      assert xs[..|xs|] == xs;
      r := Ok(values);
    }

    /** A client that reads fields inside `with b.reversed(keep)`. */
    method ReadAllReversed(xs: seq<Shape>, keep: bool) returns (r: Outcome<seq<Field>>)
      modifies this
      ensures var s := old(Snapshot());
              var (s', v) := TakeAll(s.(reverse := true, rpos := |s.bytes|), xs);
              r == v && Snapshot() == s'.(reverse := s.reverse, rpos := if keep then s'.rpos else s.rpos)
    {
      hide TakeAll;
      var prevFlag, prevRpos := reverse, rpos;
      rpos := |bytes|;
      reverse := true;
      r := ReadAll(xs);
      reverse := prevFlag;
      if !keep {
        rpos := prevRpos;
      }
    }

    /** A client that runs the commands, entering and leaving the blocks. */
    method Perform(c: Command) returns (ok: bool)
      modifies this
      ensures (Snapshot(), ok) == Exec(old(Snapshot()), c)
      decreases c, 1
    {
      match c {
        case Read(x) =>
          var r := ReadField(x);
          ok := r.Ok?;
        case Seek(offset, whence) =>
          var r := SeekRead(offset, whence);
          ok := r.Ok?;
        case Backward(keep, body) =>
          var prevFlag, prevRpos := reverse, rpos;
          reverse := true;
          ok := PerformAll(body);
          reverse := prevFlag;
          if !keep {
            rpos := prevRpos;
          }
        case Reversed(keep, body) =>
          var prevFlag, prevRpos := reverse, rpos;
          rpos := |bytes|;
          reverse := true;
          ok := PerformAll(body);
          reverse := prevFlag;
          if !keep {
            rpos := prevRpos;
          }
        case Temp(body) =>
          var saved := rpos;
          ok := PerformAll(body);
          rpos := saved;
      }
    }

    method PerformAll(cs: seq<Command>) returns (ok: bool)
      modifies this
      ensures (Snapshot(), ok) == ExecAll(old(Snapshot()), cs)
      decreases cs, 0
    {
      if cs == [] {
        return true;
      }
      ok := Perform(cs[0]);
      if ok {
        ok := PerformAll(cs[1..]);
      }
    }
  }

  lemma {:induction false} FailureStays(s: State, xs: seq<Shape>, i: nat)
    requires i <= |xs| && TakeAll(s, xs[..i]).1.Fail?
    ensures TakeAll(s, xs) == TakeAll(s, xs[..i])
    decreases |xs|
  {
    if i == |xs| {
      assert xs[..i] == xs;
    } else {
      var init := xs[..|xs| - 1];
      assert init[..i] == xs[..i];
      FailureStays(s, init, i);
    }
  }
}
