/** Printing bytes as a hex dump and reading the dump back; `None` stands for an exception. */
module HexDump {
  import opened Binary
  import opened Options
  import opened Text

  // ----- printing -----

  /** Pieces of the given size; the last may be shorter. */
  function Chunked<T>(s: seq<T>, size: nat): seq<seq<T>>
    requires size > 0
  {
    if s == [] then [] else if |s| <= size then [s] else [s[..size]] + Chunked(s[size..], size)
  }

  function Flat<T>(ss: seq<seq<T>>): seq<T> {
    if ss == [] then [] else ss[0] + Flat(ss[1..])
  }

  function HexDigit(n: nat): char
    requires n < 16
  {
    "0123456789ABCDEF"[n]
  }

  function HexByte(b: Byte): string {
    [HexDigit(b / 16), HexDigit(b % 16)]
  }

  /** `hexlify` in capitals */
  function HexString(d: seq<Byte>): string {
    if d == [] then "" else HexByte(d[0]) + HexString(d[1..])
  }

  function Dump(d: seq<Byte>): string {
    Join(Chunked(HexString(d), 2))
  }

  function HexNumeral(n: nat): (s: string)
    ensures s != [] && forall c <- s :: c != ':' && !IsSpace(c) && c != '\n'
  {
    if n < 16 then [HexDigit(n)] else HexNumeral(n / 16) + [HexDigit(n % 16)]
  }

  /** `%08X` */
  function Address(n: nat): (s: string)
    ensures |s| >= 8 && (|HexNumeral(n)| >= 8 ==> |s| == |HexNumeral(n)|)
    ensures forall c <- s :: c != ':' && !IsSpace(c) && c != '\n'
  {
    var h := HexNumeral(n);
    if |h| < 8 then seq(8 - |h|, i => '0') + h else h
  }

  function Spaces(n: nat): (s: string)
    ensures |s| == n && forall i :: 0 <= i < n ==> s[i] == ' '
  {
    seq(n, i => ' ')
  }

  function Printable(b: Byte): char {
    if 0x20 <= b <= 0x7E then b as char else '.'
  }

  function Ascii(d: seq<Byte>): (s: string)
    ensures |s| == |d|
  {
    seq(|d|, i requires 0 <= i < |d| => Printable(d[i]))
  }

  /** `s[i:j]`, cut off at the end of the string */
  function Slice(s: string, i: nat, j: nat): string
    requires i <= j
  {
    if i >= |s| then [] else if j >= |s| then s[i..] else s[i..j]
  }

  function HexPart(d: seq<Byte>): string {
    var dump := Dump(d);
    Slice(dump, 0, 24) + if |d| > 8 then " " + Slice(dump, 24, 24 + |dump|) else ""
  }

  function Padding(n: nat): nat
    requires n <= 16
  {
    2 + (if n < 16 then 3 * (16 - n) else 0) + if n <= 8 then 1 else 0
  }

  function DumpLine(addr: nat, d: seq<Byte>): string
    requires |d| <= 16
  {
    Address(addr) + ": " + (HexPart(d) + Spaces(Padding(|d|)) + Ascii(d))
  }

  function DumpLines(ds: seq<seq<Byte>>): seq<string>
    requires forall d <- ds :: |d| <= 16
  {
    seq(|ds|, i requires 0 <= i < |ds| => DumpLine(i * 16, ds[i]))
  }

  function JoinLines(ls: seq<string>): string {
    if ls == [] then "" else if |ls| == 1 then ls[0] else ls[0] + "\n" + JoinLines(ls[1..])
  }

  /** The text `hexdump` returns. */
  function DumpOf(data: seq<Byte>): string {
    SmallChunks(data, 16);
    JoinLines(DumpLines(Chunked(data, 16)))
  }

  lemma {:induction false} SmallChunks<T>(s: seq<T>, size: nat)
    requires size > 0
    ensures forall c <- Chunked(s, size) :: 0 < |c| <= size
    decreases |s|
  {
    if |s| > size {
      SmallChunks(s[size..], size);
    }
  }

  // ----- reading back -----

  function HexValue(c: char): Option<nat> {
    if '0' <= c <= '9' then Some((c - '0') as nat)
    else if 'A' <= c <= 'F' then Some((c - 'A') as nat + 10)
    else if 'a' <= c <= 'f' then Some((c - 'a') as nat + 10)
    else None
  }

  predicate IsAsciiSpace(c: char) {
    c == ' ' || 9 <= c as int <= 13
  }

  /** `bytes.fromhex`: pairs of digits, white space between them skipped. */
  function FromHex(s: string): Option<seq<Byte>> {
    if s == [] then Some([])
    else if IsAsciiSpace(s[0]) then FromHex(s[1..])
    else if |s| < 2 || HexValue(s[0]).None? || HexValue(s[1]).None? then None
    else
      var rest := FromHex(s[2..]);
      if rest.None? then None
      else Some([16 * HexDigitOf(s[0]) + HexDigitOf(s[1])] + rest.value)
  }

  function HexDigitOf(c: char): (n: nat)
    requires HexValue(c).Some?
    ensures n < 16
  {
    HexValue(c).value
  }

  /** `text.split('\n')` */
  function Split(s: string): seq<string>
    decreases |s|
  {
    var n := Find(s, '\n');
    if n == |s| then [s] else [s[..n]] + Split(s[n + 1..])
  }

  /** The hex digits of a line without its address, judged by the separator in the middle. */
  function Select(line: string): Option<string> {
    if |line| < 3 then None else
    if line[2] != ' ' then Some(line) else
    var sep := Slice(line, 23, 26);
    if Slice(sep, 0, 2) == "  " && Slice(sep, 2, 3) != " " then Some(Slice(line, 0, 48))
    else if Slice(sep, 2, 3) == " " then Some(Slice(line, 0, 23) + Slice(line, 26, 49))
    else Some(Slice(line, 0, 47))
  }

  function RestoreLine(line: string): Option<seq<Byte>> {
    var end := Find(line, ':');
    var body := LStrip(if 0 < end < |line| && end < 32 then line[end + 1..] else line);
    var hex := Select(body);
    if hex.None? then None else FromHex(hex.value)
  }

  function RestoreLines(lines: seq<string>): Option<seq<Byte>> {
    if lines == [] then Some([]) else
    var before, last := RestoreLines(lines[..|lines| - 1]), RestoreLine(lines[|lines| - 1]);
    if before.None? || last.None? then None else Some(before.value + last.value)
  }

  function Restored(dump: string): Option<seq<Byte>> {
    RestoreLines(Split(Strip(dump)))
  }

  // ----- the program -----

  method Chunks<T>(s: seq<T>, size: nat) returns (out: seq<seq<T>>)
    requires size > 0
    ensures out == Chunked(s, size)
  {
    hide Chunked;
    var d, m := |s| / size, |s| % size;
    out := [];
    assert s[0 * size..] == s;
    for i := 0 to d
      invariant i * size <= |s| && out + Chunked(s[i * size..], size) == Chunked(s, size)
    {
      Multiples(i, d, size);
      assert d * size + m == |s|;
      CutOne(s, i * size, size);
      out := out + [s[i * size..(i + 1) * size]];
    }
    CutLast(s[d * size..], size);
    if m > 0 {
      out := out + [s[d * size..]];
    }
  }

  lemma {:induction false} Multiples(i: nat, d: nat, size: nat)
    requires i < d
    ensures (i + 1) * size == i * size + size <= d * size
  {
    if d > i + 1 {
      Multiples(i, d - 1, size);
      assert d * size == (d - 1) * size + size;
    }
  }

  lemma CutOne<T>(s: seq<T>, at: nat, size: nat)
    requires size > 0 && at + size <= |s|
    ensures Chunked(s[at..], size) == [s[at..at + size]] + Chunked(s[at + size..], size)
  {
    var t := s[at..];
    assert t[..size] == s[at..at + size] && t[size..] == s[at + size..];
    if |t| == size {
      assert t == t[..size];
    }
  }

  lemma CutLast<T>(s: seq<T>, size: nat)
    requires size > 0 && |s| < size
    ensures Chunked(s, size) == if s == [] then [] else [s]
  {
  }

  method DumpGen(data: seq<Byte>) returns (lines: seq<string>)
    ensures JoinLines(lines) == DumpOf(data)
  {
    hide HexPart, Address, Padding, Printable, Spaces, JoinLines, Chunked, IsSpace, DumpLine;
    var pieces := Chunks(data, 16);
    SmallChunks(data, 16);
    lines := [];
    for k := 0 to |pieces|
      invariant |lines| == k && forall i :: 0 <= i < k ==> lines[i] == DumpLine(i * 16, pieces[i])
    {
      var d := pieces[k];
      assert d in pieces;
      var line := Address(k * 16) + ": " + HexPart(d);
      line := line + Spaces(Padding(|d|));
      ghost var head := line;
      for j := 0 to |d|
        invariant line == head + Ascii(d)[..j]
      {
        line := line + [Printable(d[j])];
      }
      assert Ascii(d)[..|d|] == Ascii(d);
      LineInOrder(k * 16, d);
      lines := lines + [line];
    }
    assert lines == DumpLines(pieces);
  }

  lemma LineInOrder(addr: nat, d: seq<Byte>)
    requires |d| <= 16
    ensures Address(addr) + ": " + HexPart(d) + Spaces(Padding(|d|)) + Ascii(d) == DumpLine(addr, d)
  {
    hide HexPart, Address, Padding, Printable, Spaces, Ascii;
  }

  method Restore(dump: string) returns (result: Option<seq<Byte>>)
    ensures result == Restored(dump)
  {
    hide FromHex, Select, LStrip, RStrip, Find, Split;
    var lines := Split(Strip(dump));
    var bytes := [];
    for i := 0 to |lines|
      invariant RestoreLines(lines[..i]) == Some(bytes)
    {
      assert lines[..i + 1][..i] == lines[..i];
      var line := lines[i];
      var addrEnd := Find(line, ':');
      if 0 < addrEnd < |line| && addrEnd < 32 {
        line := line[addrEnd + 1..];
      }
      line := LStrip(line);
      var hex := Select(line);
      var more := if hex.None? then None else FromHex(hex.value);
      if more.None? {
        FailureStays(lines, i + 1);
        return None;
      }
      bytes := bytes + more.value;
    }
    assert lines[..|lines|] == lines;
    result := Some(bytes);
  }

  lemma {:induction false} FailureStays(lines: seq<string>, i: nat)
    requires i <= |lines| && RestoreLines(lines[..i]).None?
    ensures RestoreLines(lines).None?
    decreases |lines|
  {
    if i == |lines| {
      assert lines[..i] == lines;
    } else {
      var init := lines[..|lines| - 1];
      assert init[..i] == lines[..i];
      FailureStays(init, i);
    }
  }
}
