/**
  What the byte buffer guarantees: writes and seeks amount to a zero-filled byte map in which the
  last write wins; fields written are the fields read, forward and backward; and blocks that read
  leave the contents alone and give back what they saved.
 */
module BufferProof {
  import opened Binary
  import opened Buffers

  // ----- writes and seeks -----

  datatype Edit = Write(data: seq<Byte>) | SeekTo(offset: int, whence: int)

  /** What `WriteRaw` and `SeekWrite` do to the buffer; a refused seek changes nothing. */
  function Apply(s: State, e: Edit): State {
    match e
    case Write(data) => Wrote(s, data)
    case SeekTo(offset, whence) =>
      var t := Target(offset, whence, s.wpos, |s.bytes|);
      if t < 0 then s else s.(wpos := t)
  }

  function ApplyAll(s: State, es: seq<Edit>): State {
    if es == [] then s else Apply(ApplyAll(s, es[..|es| - 1]), es[|es| - 1])
  }

  /** Carries the edits out on a buffer. */
  method Carry(b: Buffer, es: seq<Edit>)
    modifies b
    ensures b.Snapshot() == ApplyAll(old(b.Snapshot()), es)
  {
    hide Wrote, Target;
    for i := 0 to |es|
      invariant b.Snapshot() == ApplyAll(old(b.Snapshot()), es[..i])
    {
      assert es[..i + 1][..i] == es[..i];
      match es[i] {
        case Write(data) => b.WriteRaw(data);
        case SeekTo(offset, whence) => var _ := b.SeekWrite(offset, whence);
      }
    }
    assert es[..|es|] == es;
  }

  lemma TwoEdits(s: State, d: Edit, e: Edit)
    ensures ApplyAll(s, [d, e]) == Apply(Apply(s, d), e)
  {
    hide Apply;
    assert [d, e][..1] == [d] && [d][..0] == [];
    assert ApplyAll(s, [d]) == Apply(ApplyAll(s, []), d) == Apply(s, d);
  }

  /** Seeking to the end appends; seeking to an offset from the start writes there. */
  lemma SeekOrigins(s: State, data: seq<Byte>, at: nat)
    ensures ApplyAll(s, [SeekTo(0, 2), Write(data)]).bytes == s.bytes + data
    ensures var bytes := ApplyAll(s, [SeekTo(at, 0), Write(data)]).bytes;
            |bytes| >= at + |data| && bytes[at..at + |data|] == data
  {
    hide ApplyAll;
    TwoEdits(s, SeekTo(0, 2), Write(data));
    TwoEdits(s, SeekTo(at, 0), Write(data));
  }

  /** Seeking back from where the cursor is overwrites what was just written. */
  lemma SeekBack(s: State, a: seq<Byte>, b: seq<Byte>)
    requires |a| == |b|
    ensures ApplyAll(s, [Write(a), SeekTo(-|a|, 1), Write(b)]) == ApplyAll(s, [Write(b)])
  {
    var es := [Write(a), SeekTo(-|a|, 1), Write(b)];
    assert es[..2] == [Write(a), SeekTo(-|a|, 1)] && [Write(b)][..0] == [];
    TwoEdits(s, Write(a), SeekTo(-|a|, 1));
    assert ApplyAll(s, es) == Apply(ApplyAll(s, es[..2]), Write(b));
    assert ApplyAll(s, [Write(b)]) == Apply(ApplyAll(s, []), Write(b));
    assert Overlay(Overlay(s.bytes, s.wpos, a), s.wpos, b) == Overlay(s.bytes, s.wpos, b);
  }

  /** A run of bytes and the place it was written to. */
  datatype Patch = Patch(at: nat, data: seq<Byte>)

  /** The writes among the edits, each with the place of the write cursor. */
  function Patches(s: State, es: seq<Edit>): seq<Patch> {
    if es == [] then [] else
    var init, last := es[..|es| - 1], es[|es| - 1];
    Patches(s, init) + if last.Write? then [Patch(ApplyAll(s, init).wpos, last.data)] else []
  }

  predicate Covers(p: Patch, i: nat) {
    p.at <= i < p.at + |p.data|
  }

  /** No write before the last `n` decides byte `i`: it is in force from patch `k` on. */
  predicate LastToCover(ps: seq<Patch>, k: nat, i: nat) {
    k < |ps| && Covers(ps[k], i) && forall j :: k < j < |ps| ==> !Covers(ps[j], i)
  }

  /** The byte of the last write that covers `i`, else the one there at the start, else zero. */
  ghost predicate IsByteAfter(start: seq<Byte>, ps: seq<Patch>, i: nat, b: Byte) {
    (forall k: nat :: LastToCover(ps, k, i) ==> b == ps[k].data[i - ps[k].at]) &&
    ((forall k :: 0 <= k < |ps| ==> !Covers(ps[k], i)) ==> b == if i < |start| then start[i] else 0)
  }

  /** The furthest end of the start and the writes. */
  predicate IsLengthAfter(start: seq<Byte>, ps: seq<Patch>, n: nat) {
    n >= |start| && (forall p <- ps :: n >= p.at + |p.data|) &&
    (n == |start| || exists p :: p in ps && n == p.at + |p.data|)
  }

  /** Any run of writes and seeks is a zero-extended byte map in which the last write to a place wins. */
  lemma {:induction false} LastWriteWins(s: State, es: seq<Edit>)
    ensures var ps, r := Patches(s, es), ApplyAll(s, es).bytes;
            IsLengthAfter(s.bytes, ps, |r|) && forall i :: 0 <= i < |r| ==> IsByteAfter(s.bytes, ps, i, r[i])
  {
    hide IsByteAfter, IsLengthAfter, Target;
    if es == [] {
      StartIsByteMap(s.bytes);
    } else {
      var init, last := es[..|es| - 1], es[|es| - 1];
      LastWriteWins(s, init);
      if last.Write? {
        PatchedLength(s.bytes, Patches(s, init), ApplyAll(s, init).bytes, Patch(ApplyAll(s, init).wpos, last.data));
        PatchedBytes(s.bytes, Patches(s, init), ApplyAll(s, init).bytes, Patch(ApplyAll(s, init).wpos, last.data));
      } else {
        assert Patches(s, es) == Patches(s, init) && ApplyAll(s, es).bytes == ApplyAll(s, init).bytes;
      }
    }
  }

  lemma StartIsByteMap(start: seq<Byte>)
    ensures IsLengthAfter(start, [], |start|)
    ensures forall i :: 0 <= i < |start| ==> IsByteAfter(start, [], i, start[i])
  {
  }

  lemma PatchedLength(start: seq<Byte>, ps: seq<Patch>, bytes: seq<Byte>, p: Patch)
    requires IsLengthAfter(start, ps, |bytes|)
    ensures IsLengthAfter(start, ps + [p], |Overlay(bytes, p.at, p.data)|)
  {
    assert p in ps + [p];
    if q :| q in ps && |bytes| == q.at + |q.data| {
      assert q in ps + [p];
    }
  }

  lemma PatchedBytes(start: seq<Byte>, ps: seq<Patch>, bytes: seq<Byte>, p: Patch)
    requires IsLengthAfter(start, ps, |bytes|)
    requires forall i :: 0 <= i < |bytes| ==> IsByteAfter(start, ps, i, bytes[i])
    ensures var r := Overlay(bytes, p.at, p.data);
            forall i :: 0 <= i < |r| ==> IsByteAfter(start, ps + [p], i, r[i])
  {
    var r, qs := Overlay(bytes, p.at, p.data), ps + [p];
    forall i | 0 <= i < |r| ensures IsByteAfter(start, qs, i, r[i]) {
      PatchedByte(start, ps, bytes, p, i);
    }
  }

  lemma PatchedByte(start: seq<Byte>, ps: seq<Patch>, bytes: seq<Byte>, p: Patch, i: nat)
    requires IsLengthAfter(start, ps, |bytes|)
    requires forall i :: 0 <= i < |bytes| ==> IsByteAfter(start, ps, i, bytes[i])
    requires i < Max(|bytes|, p.at + |p.data|)
    ensures IsByteAfter(start, ps + [p], i, ByteOf(bytes, p.at, p.data, i))
  {
    var qs := ps + [p];
    assert qs[|ps|] == p && forall k :: 0 <= k < |ps| ==> qs[k] == ps[k];
    if !Covers(p, i) {
      forall k: nat | LastToCover(qs, k, i) ensures LastToCover(ps, k, i) {
        assert forall j :: k < j < |ps| ==> qs[j] == ps[j];
      }
      if i >= |bytes| {
        forall k | 0 <= k < |ps| ensures !Covers(ps[k], i) {
          assert ps[k] in ps;
        }
      }
    }
  }

  /** Reading and writing do not disturb each other's cursor. */
  lemma {:induction false} EditsLeaveReading(s: State, es: seq<Edit>)
    ensures var r := ApplyAll(s, es); r.rpos == s.rpos && r.reverse == s.reverse && r.endian == s.endian
  {
    if es != [] {
      EditsLeaveReading(s, es[..|es| - 1]);
    }
  }

  // ----- fields -----

  function ShapeOf(x: Field): Shape {
    match x
    case Number(f, _) => NumberOf(f)
    case Flag(_) => FlagOf
    case Raw(data) => RawOf(|data|)
    case CString(_) => CStringOf
    case Pascal(f, _) => PascalOf(f)
  }

  /** No zero byte in a C string. */
  predicate Clean(x: Field) {
    x.CString? ==> 0 !in x.data
  }

  function Shapes(xs: seq<Field>): seq<Shape> {
    seq(|xs|, i requires 0 <= i < |xs| => ShapeOf(xs[i]))
  }

  predicate FixedWidth(x: Field) {
    x.Number? || x.Flag? || x.Raw?
  }

  lemma NumberComesBack(s: State, before: seq<Byte>, f: Format, v: int, after: seq<Byte>)
    requires Fits(f, v) && !s.reverse
    requires s.bytes == before + Pack(f, v, s.endian) + after && s.rpos == |before|
    ensures TakeNumber(s, f) == (s.(rpos := |before| + Width(f)), Ok(v))
  {
    hide Pack, Unpack, Fits;
    PackThenUnpack(f, v, s.endian);
    assert s.bytes[|before|..|before| + Width(f)] == Pack(f, v, s.endian);
  }

  lemma {:induction false} FirstNul(bytes: seq<Byte>, i: nat, n: nat)
    requires i <= n < |bytes| && bytes[n] == 0 && forall j :: i <= j < n ==> bytes[j] != 0
    ensures NulAt(bytes, i) == n
    decreases n - i
  {
    if i < n {
      FirstNul(bytes, i + 1, n);
    }
  }

  lemma CStringComesBack(s: State, before: seq<Byte>, data: seq<Byte>, after: seq<Byte>)
    requires 0 !in data && !s.reverse
    requires s.bytes == before + (data + [0]) + after && s.rpos == |before|
    ensures Take(s, CStringOf) == (s.(rpos := |before| + |data| + 1), Ok(CString(data)))
  {
    hide NulAt;
    var n := |before| + |data|;
    assert s.bytes[n] == 0;
    forall j | |before| <= j < n ensures s.bytes[j] != 0 {
      assert s.bytes[j] == data[j - |before|];
    }
    FirstNul(s.bytes, |before|, n);
    assert s.bytes[|before|..n] == data;
  }

  lemma BytesComeBack(s: State, before: seq<Byte>, data: seq<Byte>, after: seq<Byte>)
    requires !s.reverse && s.bytes == before + data + after && s.rpos == |before|
    ensures TakeBytes(s, |data|) == (s.(rpos := |before| + |data|), Ok(data))
  {
    assert s.bytes[|before|..|before| + |data|] == data;
  }

  lemma Regroup<T>(a: seq<T>, b: seq<T>, c: seq<T>, d: seq<T>)
    ensures a + (b + c) + d == a + b + (c + d) == (a + b) + c + d
  {
  }

  lemma PascalComesBack(s: State, before: seq<Byte>, f: Format, data: seq<Byte>, after: seq<Byte>)
    requires Fits(f, |data|) && !s.reverse
    requires s.bytes == before + (Pack(f, |data|, s.endian) + data) + after && s.rpos == |before|
    ensures Take(s, PascalOf(f)) == (s.(rpos := |before| + Width(f) + |data|), Ok(Pascal(f, data)))
  {
    hide Pack, Unpack, Fits, Width, TakeNumber, TakeBytes;
    var prefix := Pack(f, |data|, s.endian);
    Regroup(before, prefix, data, after);
    NumberComesBack(s, before, f, |data|, data + after);
    BytesComeBack(s.(rpos := |before| + Width(f)), before + prefix, data, after);
  }

  /** A field that was written is the field read. */
  lemma FieldComesBack(s: State, before: seq<Byte>, x: Field, after: seq<Byte>)
    requires Writable(x) && Clean(x) && !s.reverse
    requires s.bytes == before + Encoded(x, s.endian) + after && s.rpos == |before|
    ensures Take(s, ShapeOf(x)) == (s.(rpos := |before| + |Encoded(x, s.endian)|), Ok(x))
  {
    hide Pack, Unpack, Fits, Width, TakeNumber, TakeBytes, NulAt;
    match x
    case Number(f, v) =>
      NumberComesBack(s, before, f, v, after);
    case Flag(b) =>
      FlagIsNumber(if b then 1 else 0, s.endian);
      NumberComesBack(s, before, U8, if b then 1 else 0, after);
    case Raw(data) =>
      BytesComeBack(s, before, data, after);
    case CString(data) =>
      CStringComesBack(s, before, data, after);
    case Pascal(f, data) =>
      PascalComesBack(s, before, f, data, after);
  }

  lemma FlagIsNumber(b: Byte, e: Endian)
    requires b < 2
    ensures Fits(U8, b) && Pack(U8, b, e) == [b] && Width(U8) == 1
  {
    assert Limit(1) == 256 * Limit(0) == 256;
    assert Digits(b, 1) == [b] + Digits(0, 0);
    assert Arrange([b], e) == [b];
  }

  /** The last field, its shape, and the bytes on either side of it. */
  lemma SplitLast(s: State, before: seq<Byte>, xs: seq<Field>, after: seq<Byte>)
    requires xs != [] && (forall x <- xs :: Writable(x)) && s.bytes == before + EncodedAll(xs, s.endian) + after
    ensures var init, last, e := xs[..|xs| - 1], xs[|xs| - 1], s.endian;
            init + [last] == xs && EncodedAll(xs, e) == EncodedAll(init, e) + Encoded(last, e) &&
            |Shapes(xs)| == |xs| && Shapes(xs)[..|xs| - 1] == Shapes(init) && Shapes(xs)[|xs| - 1] == ShapeOf(last) &&
            s.bytes == before + EncodedAll(init, e) + (Encoded(last, e) + after) &&
            s.bytes == (before + EncodedAll(init, e)) + Encoded(last, e) + after
  {
    hide Writable, Encoded, ShapeOf;
    var init, last, e := xs[..|xs| - 1], xs[|xs| - 1], s.endian;
    Regroup(before, EncodedAll(init, e), Encoded(last, e), after);
  }

  lemma NoFields(e: Endian)
    ensures EncodedAll([], e) == [] && Shapes([]) == []
  {
  }

  /** Fields written are the fields read, in either byte order, whatever surrounds them. */
  lemma {:induction false} FieldsComeBack(s: State, before: seq<Byte>, xs: seq<Field>, after: seq<Byte>)
    requires (forall x <- xs :: Writable(x) && Clean(x)) && !s.reverse
    requires s.bytes == before + EncodedAll(xs, s.endian) + after && s.rpos == |before|
    ensures TakeAll(s, Shapes(xs)) == (s.(rpos := |before| + |EncodedAll(xs, s.endian)|), Ok(xs))
  {
    hide Writable, Clean, Encoded, EncodedAll, Take, ShapeOf, Shapes;
    NoFields(s.endian);
    if xs != [] {
      var init, last, e := xs[..|xs| - 1], xs[|xs| - 1], s.endian;
      SplitLast(s, before, xs, after);
      FieldsComeBack(s, before, init, Encoded(last, e) + after);
      var s' := s.(rpos := |before| + |EncodedAll(init, e)|);
      FieldComesBack(s', before + EncodedAll(init, e), last, after);
    }
  }

  lemma CStringIsCut(s: State, before: seq<Byte>, data: seq<Byte>, after: seq<Byte>)
    requires 0 in data && !s.reverse
    requires s.bytes == before + (data + [0]) + after && s.rpos == |before|
    ensures Take(s, CStringOf).1 != Ok(CString(data))
  {
    var j :| 0 <= j < |data| && data[j] == 0;
    assert At(s.bytes, |before| + j) == 0;
  }

  /** A C string with a zero byte is the one thing that does not come back. */
  lemma {:induction false} OnlyCleanFieldsComeBack(s: State, before: seq<Byte>, xs: seq<Field>, after: seq<Byte>)
    requires (forall x <- xs :: Writable(x)) && !s.reverse
    requires s.bytes == before + EncodedAll(xs, s.endian) + after && s.rpos == |before|
    ensures (TakeAll(s, Shapes(xs)).1 == Ok(xs) ==> forall x <- xs :: Clean(x))
  {
    hide Writable, Clean, Encoded, EncodedAll, Take, ShapeOf, Shapes;
    NoFields(s.endian);
    if xs != [] {
      var init, last, e := xs[..|xs| - 1], xs[|xs| - 1], s.endian;
      SplitLast(s, before, xs, after);
      OnlyCleanFieldsComeBack(s, before, init, Encoded(last, e) + after);
      if TakeAll(s, Shapes(xs)).1 == Ok(xs) {
        FieldsComeBack(s, before, init, Encoded(last, e) + after);
        LastIsClean(s.(rpos := |before| + |EncodedAll(init, e)|), before + EncodedAll(init, e), last, after);
      }
    }
  }

  lemma LastIsClean(s: State, before: seq<Byte>, x: Field, after: seq<Byte>)
    requires Writable(x) && !s.reverse
    requires s.bytes == before + Encoded(x, s.endian) + after && s.rpos == |before|
    ensures Take(s, ShapeOf(x)).1 == Ok(x) ==> Clean(x)
  {
    hide Pack, Unpack, Fits, TakeNumber, TakeBytes, NulAt, Take;
    if x.CString? && 0 in x.data {
      CStringIsCut(s, before, x.data, after);
    }
  }

  /** Written to an empty buffer, fields read as they were and end at the end, exactly when no C string holds a zero. */
  lemma WriteThenRead(e: Endian, xs: seq<Field>)
    requires forall x <- xs :: Writable(x)
    ensures var s := Wrote(State([], 0, 0, e, false), EncodedAll(xs, e));
            var (t, r) := TakeAll(s, Shapes(xs));
            (r == Ok(xs) <==> forall x <- xs :: Clean(x)) && (r == Ok(xs) ==> t == s.(rpos := |s.bytes|))
  {
    hide Writable, Clean, TakeAll, ShapeOf;
    var data := EncodedAll(xs, e);
    var s := Wrote(State([], 0, 0, e, false), data);
    assert s.bytes == data == [] + data + [];
    if forall x <- xs :: Clean(x) {
      FieldsComeBack(s, [], xs, []);
    }
    OnlyCleanFieldsComeBack(s, [], xs, []);
  }

  /** A client that writes fields to a new buffer and reads them back. */
  method WriteAndRead(e: Endian, xs: seq<Field>) returns (b: Buffer, r: Outcome<seq<Field>>)
    requires forall x <- xs :: Writable(x)
    ensures r == Ok(xs) <==> forall x <- xs :: Clean(x)
    ensures r == Ok(xs) ==> b.Eof()
  {
    hide Writable, Clean, TakeAll, ShapeOf, Overlay;
    b := new Buffer([], e);
    b.WriteAll(xs);
    NothingWritten(e);
    WriteThenRead(e, xs);
    r := b.ReadAll(Shapes(xs));
  }

  lemma NothingWritten(e: Endian)
    ensures Wrote(State([], 0, 0, e, false), EncodedAll([], e)) == State([], 0, 0, e, false)
  {
  }

  // ----- backward -----

  lemma {:induction false} EncodedFirst(x: Field, xs: seq<Field>, e: Endian)
    requires Writable(x) && forall y <- xs :: Writable(y)
    ensures EncodedAll([x] + xs, e) == Encoded(x, e) + EncodedAll(xs, e)
  {
    hide Encoded, Writable;
    var all := [x] + xs;
    if xs == [] {
      assert all[..|all| - 1] == [];
      assert all == [x];
    } else {
      var init := xs[..|xs| - 1];
      assert all[..|all| - 1] == [x] + init;
      EncodedFirst(x, init, e);
    }
  }

  lemma FieldComesBackward(s: State, before: seq<Byte>, x: Field, after: seq<Byte>)
    requires Writable(x) && FixedWidth(x) && s.reverse
    requires s.bytes == before + Encoded(x, s.endian) + after && s.rpos == |before| + |Encoded(x, s.endian)|
    ensures Take(s, ShapeOf(x)) == (s.(rpos := |before|), Ok(x))
  {
    hide Pack, Unpack, Fits;
    assert s.bytes[|before|..|before| + |Encoded(x, s.endian)|] == Encoded(x, s.endian);
    match x
    case Number(f, v) =>
      PackThenUnpack(f, v, s.endian);
    case Flag(b) =>
      FlagIsNumber(if b then 1 else 0, s.endian);
      PackThenUnpack(U8, if b then 1 else 0, s.endian);
    case Raw(data) =>
  }

  lemma ReverseNothing<T>()
    ensures Reverse<T>([]) == []
  {
  }

  lemma ReverseFirst<T>(xs: seq<T>)
    requires xs != []
    ensures Reverse(xs) == Reverse(xs[1..]) + [xs[0]]
  {
  }

  lemma ReverseShapes(xs: seq<Field>)
    requires xs != []
    ensures var r, s := Reverse(xs), Shapes(Reverse(xs));
            r == Reverse(xs[1..]) + [xs[0]] && |s| == |xs| &&
            s[..|xs| - 1] == Shapes(Reverse(xs[1..])) && s[|xs| - 1] == ShapeOf(xs[0])
  {
    hide ShapeOf, Reverse;
    ReverseFirst(xs);
  }

  /** Read in reverse from their end, fixed-width fields come back last first. */
  lemma {:induction false} FieldsComeBackward(s: State, before: seq<Byte>, xs: seq<Field>, after: seq<Byte>)
    requires (forall x <- xs :: Writable(x) && FixedWidth(x)) && s.reverse
    requires s.bytes == before + EncodedAll(xs, s.endian) + after && s.rpos == |before| + |EncodedAll(xs, s.endian)|
    ensures TakeAll(s, Shapes(Reverse(xs))) == (s.(rpos := |before|), Ok(Reverse(xs)))
    decreases |xs|
  {
    hide Writable, FixedWidth, Encoded, EncodedAll, Take, ShapeOf, Shapes, Reverse;
    NoFields(s.endian);
    assert Reverse<Field>([]) == [] by {
      ReverseNothing<Field>();
    }
    if xs != [] {
      var x, rest, e := xs[0], xs[1..], s.endian;
      assert [x] + rest == xs;
      EncodedFirst(x, rest, e);
      Regroup(before, Encoded(x, e), EncodedAll(rest, e), after);
      FieldsComeBackward(s, before + Encoded(x, e), rest, after);
      var s' := s.(rpos := |before| + |Encoded(x, e)|);
      FieldComesBackward(s', before, x, EncodedAll(rest, e) + after);
      ReverseShapes(xs);
    }
  }

  /** Inside `reversed()`, a buffer of fixed-width fields reads back to front and ends at its start. */
  lemma WriteThenReadReversed(e: Endian, xs: seq<Field>)
    requires forall x <- xs :: Writable(x) && FixedWidth(x)
    ensures var s := Wrote(State([], 0, 0, e, false), EncodedAll(xs, e));
            TakeAll(s.(reverse := true, rpos := |s.bytes|), Shapes(Reverse(xs)))
            == (s.(reverse := true, rpos := 0), Ok(Reverse(xs)))
  {
    hide Writable, FixedWidth, TakeAll;
    var data := EncodedAll(xs, e);
    var s := Wrote(State([], 0, 0, e, false), data);
    assert s.bytes == data == [] + data + [];
    FieldsComeBackward(s.(reverse := true, rpos := |s.bytes|), [], xs, []);
  }

  /** A client that writes fixed-width fields to a new buffer and reads them inside `reversed()`. */
  method WriteAndReadReversed(e: Endian, xs: seq<Field>) returns (b: Buffer, r: Outcome<seq<Field>>)
    requires forall x <- xs :: Writable(x) && FixedWidth(x)
    ensures r == Ok(Reverse(xs)) && b.rpos == 0 && !b.reverse
  {
    hide Writable, FixedWidth, TakeAll, ShapeOf, Overlay;
    b := new Buffer([], e);
    b.WriteAll(xs);
    NothingWritten(e);
    WriteThenReadReversed(e, xs);
    r := b.ReadAllReversed(Shapes(Reverse(xs)), true);
  }

  // ----- blocks -----

  /** Nothing but the read cursor moves. */
  predicate OnlyCursor(s: State, t: State) {
    t.bytes == s.bytes && t.wpos == s.wpos && t.endian == s.endian && t.reverse == s.reverse
  }

  lemma TakeMovesCursor(s: State, x: Shape)
    ensures OnlyCursor(s, Take(s, x).0)
  {
    hide Unpack, NulAt;
  }

  /** The cursor comes back from a block that says so. */
  predicate Restores(c: Command) {
    c.Temp? || ((c.Backward? || c.Reversed?) && !c.keep)
  }

  /** Reading commands and blocks, nested in any way and even when they raise, keep contents and restore the flag. */
  lemma {:induction false} BlocksRestore(s: State, c: Command)
    ensures OnlyCursor(s, Exec(s, c).0)
    ensures Restores(c) ==> Exec(s, c).0 == s
    decreases c, 1
  {
    hide Take;
    match c
    case Read(x) => TakeMovesCursor(s, x);
    case Seek(_, _) =>
    case Backward(_, body) => RunsRestore(s.(reverse := true), body);
    case Reversed(_, body) => RunsRestore(s.(reverse := true, rpos := |s.bytes|), body);
    case Temp(body) => RunsRestore(s, body);
  }

  lemma {:induction false} RunsRestore(s: State, cs: seq<Command>)
    ensures OnlyCursor(s, ExecAll(s, cs).0)
    decreases cs, 0
  {
    if cs != [] {
      BlocksRestore(s, cs[0]);
      var (s', ok) := Exec(s, cs[0]);
      if ok {
        RunsRestore(s', cs[1..]);
      }
    }
  }
}
