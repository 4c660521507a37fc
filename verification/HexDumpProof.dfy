/** When a hex dump reads back as the bytes it was made from: exactly when, for every byte string. */
module HexDumpProof {
  import opened Binary
  import opened HexDump
  import opened Options
  import opened Text

  // ----- the hex part of a line -----

  /** The bytes in hex with one space between them. */
  function Spelled(d: seq<Byte>): string {
    if d == [] then "" else if |d| == 1 then HexByte(d[0]) else HexByte(d[0]) + " " + Spelled(d[1..])
  }

  lemma {:induction false} DumpSpells(d: seq<Byte>)
    ensures Dump(d) == Spelled(d) && |Spelled(d)| == (if d == [] then 0 else 3 * |d| - 1)
  {
    if d != [] {
      DumpSpells(d[1..]);
      var hex := HexString(d);
      assert hex[..2] == HexByte(d[0]) && hex[2..] == HexString(d[1..]);
      if |d| == 1 {
        assert hex == HexByte(d[0]);
        assert Chunked(hex, 2) == [hex];
      } else {
        assert |HexString(d[1..])| >= 2;
        var rest := Chunked(hex[2..], 2);
        assert Chunked(hex, 2) == [hex[..2]] + rest;
        assert rest != [];
      }
    }
  }

  lemma {:induction false} SpelledAppend(a: seq<Byte>, b: seq<Byte>)
    requires a != [] && b != []
    ensures Spelled(a + b) == Spelled(a) + " " + Spelled(b)
  {
    assert (a + b)[1..] == a[1..] + b;
    if |a| > 1 {
      SpelledAppend(a[1..], b);
    }
  }

  /** The hex part: one space between bytes, two in the middle. */
  function Gapped(d: seq<Byte>): string {
    if |d| > 8 then Spelled(d[..8]) + "  " + Spelled(d[8..]) else Spelled(d)
  }

  lemma HexPartIsGapped(d: seq<Byte>)
    requires d != []
    ensures HexPart(d) == Gapped(d)
    ensures |Gapped(d)| == if |d| > 8 then 3 * |d| else 3 * |d| - 1
  {
    hide Spelled, Dump;
    DumpSpells(d);
    if |d| > 8 {
      var a, b := d[..8], d[8..];
      assert a + b == d;
      SpelledAppend(a, b);
      DumpSpells(a);
      DumpSpells(b);
      var dump := Dump(d);
      assert dump == Spelled(a) + " " + Spelled(b);
      assert Slice(dump, 0, 24) == dump[..24] == Spelled(a) + " ";
      assert Slice(dump, 24, 24 + |dump|) == dump[24..] == Spelled(b);
      assert Spelled(a) + " " + (" " + Spelled(b)) == Gapped(d);
    }
  }

  lemma DigitHasValue(n: nat)
    requires n < 16
    ensures var c := HexDigit(n); HexValue(c) == Some(n) && !IsAsciiSpace(c) && !IsSpace(c) && c != ' '
  {
  }

  lemma ByteFromHex(b: Byte, rest: string)
    ensures FromHex(HexByte(b) + rest) ==
            if FromHex(rest).None? then None else Some([b] + FromHex(rest).value)
  {
    hide HexValue, HexDigit, IsAsciiSpace;
    DigitHasValue(b / 16);
    DigitHasValue(b % 16);
    assert (HexByte(b) + rest)[2..] == rest;
  }

  lemma SpaceFromHex(rest: string)
    ensures FromHex(" " + rest) == FromHex(rest)
  {
    assert (" " + rest)[1..] == rest;
  }

  lemma {:induction false} SpelledFromHex(d: seq<Byte>, rest: string)
    requires FromHex(rest).Some?
    ensures FromHex(Spelled(d) + rest) == Some(d + FromHex(rest).value)
  {
    hide FromHex, HexByte;
    if d == [] {
      assert Spelled(d) + rest == rest;
      assert d + FromHex(rest).value == FromHex(rest).value;
    } else if |d| == 1 {
      ByteFromHex(d[0], rest);
      assert d == [d[0]];
    } else {
      var tail := " " + (Spelled(d[1..]) + rest);
      assert Spelled(d) + rest == HexByte(d[0]) + tail;
      SpelledFromHex(d[1..], rest);
      SpaceFromHex(Spelled(d[1..]) + rest);
      ByteFromHex(d[0], tail);
      assert d + FromHex(rest).value == [d[0]] + (d[1..] + FromHex(rest).value);
    }
  }

  lemma {:induction false} SpacesFromHex(k: nat)
    ensures FromHex(Spaces(k)) == Some([])
  {
    if k > 0 {
      SpacesFromHex(k - 1);
      assert Spaces(k) == " " + Spaces(k - 1);
      SpaceFromHex(Spaces(k - 1));
    }
  }

  /** The hex part, with any spaces after it, decodes to the bytes. */
  lemma GappedFromHex(d: seq<Byte>, k: nat)
    ensures FromHex(Gapped(d) + Spaces(k)) == Some(d)
  {
    hide FromHex, Spelled, Spaces;
    SpacesFromHex(k);
    if |d| > 8 {
      var a, b := d[..8], d[8..];
      SpelledFromHex(b, Spaces(k));
      var tail := Spelled(b) + Spaces(k);
      SpaceFromHex(tail);
      SpaceFromHex(" " + tail);
      SpelledFromHex(a, " " + (" " + tail));
      assert Gapped(d) + Spaces(k) == Spelled(a) + (" " + (" " + tail));
      assert a + (b + []) == d;
    } else {
      SpelledFromHex(d, Spaces(k));
      assert d + [] == d;
    }
  }

  // ----- choosing the hex part again -----

  lemma SpelledStart(d: seq<Byte>)
    requires d != []
    ensures |Spelled(d)| >= 2 && Spelled(d)[0] == HexDigit(d[0] / 16)
    ensures |d| > 1 ==> |Spelled(d)| > 2 && Spelled(d)[2] == ' '
  {
  }

  lemma {:induction false} SpelledEnd(d: seq<Byte>)
    requires d != []
    ensures |Spelled(d)| >= 2 && Spelled(d)[|Spelled(d)| - 1] == HexDigit(d[|d| - 1] % 16)
  {
    if |d| > 1 {
      SpelledEnd(d[1..]);
    }
  }

  lemma GappedEnds(d: seq<Byte>)
    requires d != []
    ensures var h := Gapped(d);
            |h| >= 2 && !IsSpace(h[0]) && !IsSpace(h[|h| - 1]) && (|d| > 1 ==> |h| > 2 && h[2] == ' ')
  {
    hide Spelled, IsSpace, HexDigit;
    DigitHasValue(d[0] / 16);
    DigitHasValue(d[|d| - 1] % 16);
    if |d| > 8 {
      SpelledStart(d[..8]);
      SpelledEnd(d[8..]);
    } else {
      SpelledStart(d);
      SpelledEnd(d);
    }
  }

  /** In the middle of a long line stand two spaces and a digit. */
  lemma GappedMiddle(d: seq<Byte>)
    requires |d| > 8
    ensures var h := Gapped(d); |h| > 25 && h[23] == ' ' && h[24] == ' ' && h[25] != ' '
  {
    hide Spelled, HexDigit;
    DumpSpells(d[..8]);
    DumpSpells(d[8..]);
    SpelledStart(d[8..]);
    DigitHasValue(d[8] / 16);
  }

  /** A line cut back to its hex part. */
  lemma SelectBare(d: seq<Byte>)
    requires 0 < |d| <= 16
    ensures Select(Gapped(d)) == if |d| == 1 then None else Some(Gapped(d) + Spaces(0))
  {
    hide Gapped, IsSpace, HexPart;
    var h := Gapped(d);
    HexPartIsGapped(d);
    assert h + Spaces(0) == h;
    if |d| > 1 {
      GappedEnds(d);
      if |d| > 8 {
        GappedMiddle(d);
      }
    }
  }

  /** The separator picks the branch. */
  lemma SelectBySeparator(line: string)
    requires |line| > 50 && line[2] == ' ' && line[23] == ' ' && line[24] == ' '
    ensures Select(line) == Some(if line[25] == ' ' then line[..23] + line[26..49] else line[..48])
  {
    var sep := Slice(line, 23, 26);
    assert sep == [line[23], line[24], line[25]];
    assert Slice(sep, 0, 2) == [line[23], line[24]] && Slice(sep, 2, 3) == [line[25]];
    assert Slice(line, 0, 23) == line[..23] && Slice(line, 26, 49) == line[26..49] && Slice(line, 0, 48) == line[..48];
  }

  lemma LongLine(h: string, text: string)
    requires 25 < |h| <= 48 && text != [] && h[2] == ' ' && h[23] == ' ' && h[24] == ' ' && h[25] != ' '
    ensures Select(h + Spaces(50 - |h|) + text) == Some(h + Spaces(48 - |h|))
  {
    hide Select;
    var line := h + Spaces(50 - |h|) + text;
    SelectBySeparator(line);
    assert line[..48] == h + Spaces(48 - |h|);
  }

  lemma ShortLine(h: string, text: string)
    requires 2 <= |h| <= 23 && text != [] && (|h| > 2 ==> h[2] == ' ')
    ensures Select(h + Spaces(50 - |h|) + text) == Some(h + Spaces(46 - |h|))
  {
    hide Select;
    var line := h + Spaces(50 - |h|) + text;
    SelectBySeparator(line);
    assert line[..23] + line[26..49] == h + Spaces(46 - |h|);
  }

  /** A line with something left of its text column. */
  lemma SelectFull(d: seq<Byte>, text: string)
    requires 0 < |d| <= 16 && text != []
    ensures |Gapped(d)| <= (if |d| > 8 then 48 else 23)
    ensures Select(Gapped(d) + Spaces(50 - |Gapped(d)|) + text)
            == Some(Gapped(d) + Spaces((if |d| > 8 then 48 else 46) - |Gapped(d)|))
  {
    hide Gapped, Select, Spaces, IsSpace, HexPart, Address;
    HexPartIsGapped(d);
    GappedEnds(d);
    if |d| > 8 {
      GappedMiddle(d);
      LongLine(Gapped(d), text);
    } else {
      ShortLine(Gapped(d), text);
    }
  }

  /** A line without its address, as far as `strip` leaves its text column: all of it, a part, or nothing. */
  predicate IsBody(body: string, d: seq<Byte>)
    requires 0 < |d| <= 16
  {
    body == Gapped(d) || exists k :: 0 < k <= |d| && body == FullBody(d, k)
  }

  function FullBody(d: seq<Byte>, k: nat): string
    requires 0 < |d| <= 16 && k <= |d|
  {
    HexPartIsGapped(d);
    Gapped(d) + Spaces(50 - |Gapped(d)|) + Ascii(d)[..k]
  }

  lemma LineIsBody(addr: nat, d: seq<Byte>)
    requires 0 < |d| <= 16
    ensures DumpLine(addr, d) == Address(addr) + ": " + FullBody(d, |d|)
  {
    hide Gapped, HexPart, Spaces, Address, Printable;
    HexPartIsGapped(d);
    assert Ascii(d)[..|d|] == Ascii(d);
  }

  /** What the hex part of a body decodes to. */
  lemma BodyDecodes(body: string, d: seq<Byte>)
    requires 0 < |d| <= 16 && IsBody(body, d)
    ensures var hex := Select(body);
            (if hex.None? then None else FromHex(hex.value)) == if |d| == 1 && body == Gapped(d) then None else Some(d)
    ensures body != [] && !IsSpace(body[0])
  {
    hide Gapped, Select, FromHex, IsSpace, Ascii;
    GappedEnds(d);
    if body == Gapped(d) {
      SelectBare(d);
      GappedFromHex(d, 0);
    } else {
      var n :| 0 < n <= |d| && body == FullBody(d, n);
      SelectFull(d, Ascii(d)[..n]);
      HexPartIsGapped(d);
      GappedFromHex(d, (if |d| > 8 then 48 else 46) - |Gapped(d)|);
    }
  }

  // ----- the address -----

  function Pow16(k: nat): nat {
    if k == 0 then 1 else 16 * Pow16(k - 1)
  }

  /** Addresses below this bound have fewer than 32 digits. */
  const ADDRESS_LIMIT := Pow16(31)

  lemma {:induction false} NumeralLength(n: nat, k: nat)
    requires k > 0
    ensures |HexNumeral(n)| <= k <==> n < Pow16(k)
  {
    if n >= 16 {
      if k == 1 {
        assert |HexNumeral(n / 16)| > 0;
      } else {
        NumeralLength(n / 16, k - 1);
      }
    } else {
      PowGrows(k);
    }
  }

  lemma {:induction false} PowGrows(k: nat)
    requires k > 0
    ensures Pow16(k) >= 16
  {
    if k > 1 {
      PowGrows(k - 1);
    }
  }

  lemma AddressLength(n: nat)
    ensures |Address(n)| < 32 <==> n < ADDRESS_LIMIT
  {
    hide HexNumeral;
    NumeralLength(n, 31);
  }

  /** The number a run of capital hex digits stands for. */
  function HexRead(s: string): int {
    if s == [] then 0 else
    var c := s[|s| - 1];
    16 * HexRead(s[..|s| - 1]) + if c <= '9' then c as int - '0' as int else c as int - 'A' as int + 10
  }

  lemma {:induction false} NumeralReads(n: nat)
    ensures HexRead(HexNumeral(n)) == n
  {
    var s := HexNumeral(n);
    if n >= 16 {
      NumeralReads(n / 16);
      assert s[..|s| - 1] == HexNumeral(n / 16);
    } else {
      assert s[..|s| - 1] == [];
    }
  }

  lemma {:induction false} ZerosRead(k: nat, s: string)
    ensures HexRead(seq(k, i => '0') + s) == HexRead(s)
  {
    var t := seq(k, i => '0') + s;
    if s != [] {
      assert t[..|t| - 1] == seq(k, i => '0') + s[..|s| - 1];
      ZerosRead(k, s[..|s| - 1]);
    } else if k > 0 {
      assert t[..|t| - 1] == seq(k - 1, i => '0') + s;
      ZerosRead(k - 1, s);
    }
  }

  /** An address stands for its number, in eight digits if that is enough. */
  lemma AddressReads(n: nat)
    ensures HexRead(Address(n)) == n && (|Address(n)| == 8 <==> n < 0x1_0000_0000)
  {
    hide HexNumeral;
    var h := HexNumeral(n);
    NumeralReads(n);
    NumeralLength(n, 8);
    assert Pow16(4) == 0x1_0000;
    assert Pow16(8) == 0x1_0000_0000;
    if |h| < 8 {
      ZerosRead(8 - |h|, h);
    }
  }

  lemma {:induction false} SpelledAt(d: seq<Byte>, j: nat)
    requires j < |d|
    ensures |Spelled(d)| == 3 * |d| - 1
    ensures Spelled(d)[3 * j] == HexByte(d[j])[0] && Spelled(d)[3 * j + 1] == HexByte(d[j])[1]
  {
    DumpSpells(d);
    if j > 0 {
      SpelledAt(d[1..], j - 1);
      var rest := HexByte(d[0]) + " ";
      assert Spelled(d) == rest + Spelled(d[1..]);
      assert Spelled(d)[3 * j] == Spelled(d[1..])[3 * j - 3] && Spelled(d)[3 * j + 1] == Spelled(d[1..])[3 * j - 2];
    }
  }

  lemma GappedAt(d: seq<Byte>, j: nat)
    requires j < |d|
    ensures var at := 3 * j + if j < 8 then 0 else 1;
            at + 1 < |Gapped(d)| && Gapped(d)[at] == HexByte(d[j])[0] && Gapped(d)[at + 1] == HexByte(d[j])[1]
  {
    hide Spelled, HexByte;
    if |d| <= 8 {
      SpelledAt(d, j);
    } else if j < 8 {
      SpelledAt(d[..8], j);
    } else {
      SpelledAt(d[..8], 0);
      SpelledAt(d[8..], j - 8);
    }
  }

  /** The columns of a line, counted from the end of its address: each byte in two capital hex digits, and from
      column 52 on each byte as a character, a dot for what cannot be printed. */
  lemma LineColumns(addr: nat, d: seq<Byte>, j: nat)
    requires |d| <= 16 && j < |d|
    ensures var line, a := DumpLine(addr, d), |Address(addr)|;
            var at := a + 2 + 3 * j + if j < 8 then 0 else 1;
            |line| == a + 52 + |d| && line[..a] == Address(addr) && line[a..a + 2] == ": " &&
            line[at] == "0123456789ABCDEF"[d[j] / 16] && line[at + 1] == "0123456789ABCDEF"[d[j] % 16] &&
            line[a + 52 + j] == if 0x20 <= d[j] <= 0x7E then d[j] as char else '.'
  {
    hide Address, Gapped, HexPart, IsSpace;
    HexPartIsGapped(d);
    GappedAt(d, j);
    var head, hex, gap := Address(addr) + ": ", HexPart(d), Spaces(Padding(|d|));
    assert DumpLine(addr, d) == head + (hex + gap + Ascii(d));
    assert |hex + gap| == 50;
  }

  lemma {:induction false} ColonFails(s: string)
    requires ':' in s
    ensures FromHex(s).None?
    decreases |s|
  {
    if IsAsciiSpace(s[0]) {
      ColonFails(s[1..]);
    } else if |s| >= 2 && HexValue(s[0]).Some? && HexValue(s[1]).Some? {
      assert s == [s[0], s[1]] + s[2..];
      ColonFails(s[2..]);
    }
  }

  /** An address of fewer than 32 digits is cut off; a longer one is taken for data and refused. */
  lemma AddressedLine(addr: nat, body: string)
    requires body != [] && !IsSpace(body[0])
    ensures RestoreLine(Address(addr) + ": " + body) ==
            if addr >= ADDRESS_LIMIT || Select(body).None? then None else FromHex(Select(body).value)
  {
    hide Address, Select, FromHex, IsSpace, LStrip;
    AddressLength(addr);
    var a := Address(addr);
    var line := a + ": " + body;
    assert line == a + [':'] + (" " + body);
    FindFirst(a, ':', " " + body);
    if addr < ADDRESS_LIMIT {
      assert line[|a| + 1..] == " " + body;
      LStripOne(body);
    } else {
      LongAddress(a, line);
    }
  }

  lemma LStripOne(s: string)
    requires s != [] && !IsSpace(s[0])
    ensures LStrip(" " + s) == s
  {
    assert (" " + s)[1..] == s;
  }

  lemma LongAddress(a: string, line: string)
    requires |a| >= 32 && a < line && ':' in line && forall c <- a :: !IsSpace(c)
    ensures LStrip(line) == line && Select(line) == Some(line) && FromHex(line).None?
  {
    hide FromHex;
    assert line[0] == a[0] && line[2] == a[2];
    assert IsSpace(' ');
    ColonFails(line);
  }

  // ----- stripping the whole dump -----

  lemma {:induction false} RStripAppend(a: string, b: string)
    requires RStrip(b) != []
    ensures RStrip(a + b) == a + RStrip(b)
    decreases |b|
  {
    if IsSpace(b[|b| - 1]) {
      RStripAppend(a, b[..|b| - 1]);
      assert (a + b)[..|a + b| - 1] == a + b[..|b| - 1];
    }
  }

  lemma {:induction false} JoinLinesSnoc(ls: seq<string>, x: string)
    ensures JoinLines(ls + [x]) == (if ls == [] then x else JoinLines(ls) + "\n" + x)
  {
    if ls == [] {
      assert ls + [x] == [x];
    } else {
      assert (ls + [x])[1..] == ls[1..] + [x];
      JoinLinesSnoc(ls[1..], x);
    }
  }

  predicate StartsDark(s: string) {
    s != [] && !IsSpace(s[0])
  }

  lemma StripLines(ls: seq<string>, x: string)
    requires RStrip(x) != [] && x != []
    requires StartsDark(if ls == [] then x else ls[0])
    ensures Strip(JoinLines(ls + [x])) == JoinLines(ls + [RStrip(x)])
  {
    hide IsSpace, RStrip;
    JoinLinesSnoc(ls, x);
    JoinLinesSnoc(ls, RStrip(x));
    var text := JoinLines(ls + [x]);
    assert LStrip(text) == text;
    if ls != [] {
      RStripAppend(JoinLines(ls) + "\n", x);
    }
  }

  lemma {:induction false} SplitLines(ls: seq<string>)
    requires ls != [] && forall l <- ls :: '\n' !in l
    ensures Split(JoinLines(ls)) == ls
  {
    assert ls[0] in ls;
    if |ls| == 1 {
      FindFirst(ls[0], '\n', "");
    } else {
      var rest := JoinLines(ls[1..]);
      var text := ls[0] + ['\n'] + rest;
      FindFirst(ls[0], '\n', rest);
      assert text[..|ls[0]|] == ls[0] && text[|ls[0]| + 1..] == rest;
      SplitLines(ls[1..]);
    }
  }

  /** How much of the text column is left when the spaces at its end are gone. */
  function Kept(d: seq<Byte>, k: nat): (n: nat)
    requires k <= |d|
    ensures n <= k
  {
    if k == 0 then 0 else if d[k - 1] == 0x20 then Kept(d, k - 1) else k
  }

  function StrippedBody(d: seq<Byte>, k: nat): string
    requires 0 < |d| <= 16 && k <= |d|
  {
    if Kept(d, k) == 0 then Gapped(d) else FullBody(d, Kept(d, k))
  }

  lemma PrintableSpace(b: Byte)
    ensures IsSpace(Printable(b)) <==> b == 0x20
    ensures Printable(b) != '\n'
  {
  }

  lemma {:induction false} RStripSpaces(h: string, k: nat)
    requires h != [] && !IsSpace(h[|h| - 1])
    ensures RStrip(h + Spaces(k)) == h
  {
    if k == 0 {
      assert h + Spaces(0) == h;
    } else {
      assert (h + Spaces(k))[..|h| + k - 1] == h + Spaces(k - 1);
      RStripSpaces(h, k - 1);
    }
  }

  lemma {:induction false} BodyStrips(d: seq<Byte>, k: nat)
    requires 0 < |d| <= 16 && k <= |d|
    ensures RStrip(FullBody(d, k)) == StrippedBody(d, k)
    decreases k
  {
    hide Gapped, IsSpace, Spaces, Printable, Address, HexPart;
    HexPartIsGapped(d);
    GappedEnds(d);
    var h := Gapped(d);
    var full := FullBody(d, k);
    if k == 0 {
      assert full == h + Spaces(50 - |h|);
      RStripSpaces(h, 50 - |h|);
    } else {
      PrintableSpace(d[k - 1]);
      assert full[|full| - 1] == Printable(d[k - 1]);
      assert Ascii(d)[..k][..k - 1] == Ascii(d)[..k - 1];
      assert full[..|full| - 1] == FullBody(d, k - 1);
      BodyStrips(d, k - 1);
    }
  }

  lemma BodiesDiffer(d: seq<Byte>)
    requires 0 < |d| <= 16
    ensures IsBody(StrippedBody(d, |d|), d) && IsBody(FullBody(d, |d|), d)
    ensures FullBody(d, |d|) != Gapped(d)
    ensures |d| == 1 ==> (StrippedBody(d, |d|) == Gapped(d) <==> d[0] == 0x20)
  {
    hide Gapped, Spaces, Ascii;
    HexPartIsGapped(d);
  }

  lemma {:induction false} SpelledHasNoNewline(d: seq<Byte>)
    ensures '\n' !in Spelled(d)
  {
    if d != [] {
      SpelledHasNoNewline(d[1..]);
      DigitHasValue(d[0] / 16);
      DigitHasValue(d[0] % 16);
      assert IsSpace('\n');
    }
  }

  lemma LineHasNoNewline(addr: nat, d: seq<Byte>, body: string)
    requires 0 < |d| <= 16 && IsBody(body, d)
    ensures '\n' !in Address(addr) + ": " + body
  {
    hide Spelled, Address, IsSpace, Printable, HexPart;
    if |d| > 8 {
      SpelledHasNoNewline(d[..8]);
      SpelledHasNoNewline(d[8..]);
    } else {
      SpelledHasNoNewline(d);
    }
    forall b: Byte ensures Printable(b) != '\n' {
      PrintableSpace(b);
    }
  }

  /** Line `i` as it reaches `restore`: only the last one is stripped. */
  function SeenBody(ds: seq<seq<Byte>>, i: nat): string
    requires i < |ds| && forall d <- ds :: 0 < |d| <= 16
  {
    if i < |ds| - 1 then FullBody(ds[i], |ds[i]|) else StrippedBody(ds[i], |ds[i]|)
  }

  function SeenLines(ds: seq<seq<Byte>>): seq<string>
    requires forall d <- ds :: 0 < |d| <= 16
  {
    seq(|ds|, i requires 0 <= i < |ds| => Address(i * 16) + ": " + SeenBody(ds, i))
  }

  lemma LastLineStrips(addr: nat, d: seq<Byte>)
    requires 0 < |d| <= 16
    ensures RStrip(DumpLine(addr, d)) == Address(addr) + ": " + StrippedBody(d, |d|)
    ensures RStrip(DumpLine(addr, d)) != []
  {
    hide Address, Gapped, FullBody, RStrip, HexPart;
    LineIsBody(addr, d);
    BodyStrips(d, |d|);
    BodiesDiffer(d);
    BodyDecodes(StrippedBody(d, |d|), d);
    RStripAppend(Address(addr) + ": ", FullBody(d, |d|));
  }

  lemma LineStart(addr: nat, d: seq<Byte>)
    requires |d| <= 16
    ensures StartsDark(DumpLine(addr, d))
  {
    hide IsSpace, HexPart, Padding, Spaces, Ascii;
    var a := Address(addr);
    assert DumpLine(addr, d)[0] == a[0] && a[0] in a;
  }

  lemma SeenIsDumped(ds: seq<seq<Byte>>, i: nat)
    requires i < |ds| && forall d <- ds :: 0 < |d| <= 16
    ensures '\n' !in SeenLines(ds)[i]
    ensures SeenLines(ds)[i] == if i < |ds| - 1 then DumpLine(i * 16, ds[i]) else RStrip(DumpLine(i * 16, ds[i]))
  {
    hide DumpLine, StrippedBody, FullBody, Address, RStrip, IsBody, Gapped;
    LineIsBody(i * 16, ds[i]);
    LastLineStrips(i * 16, ds[i]);
    BodiesDiffer(ds[i]);
    LineHasNoNewline(i * 16, ds[i], SeenBody(ds, i));
  }

  /** Stripping a text of lines and splitting it gives the lines, the last one stripped. */
  lemma StripThenSplit(ls: seq<string>, x: string)
    requires RStrip(x) != [] && x != []
    requires StartsDark(if ls == [] then x else ls[0])
    requires '\n' !in RStrip(x) && forall l <- ls :: '\n' !in l
    ensures Split(Strip(JoinLines(ls + [x]))) == ls + [RStrip(x)]
  {
    hide StartsDark, RStrip, Split, Strip, JoinLines;
    StripLines(ls, x);
    SplitLines(ls + [RStrip(x)]);
  }

  lemma SeenInOrder(ds: seq<seq<Byte>>)
    requires ds != [] && forall d <- ds :: 0 < |d| <= 16
    ensures var lines, n := DumpLines(ds), |ds| - 1;
            |lines| == |ds| && SeenLines(ds) == lines[..n] + [RStrip(lines[n])] && lines[..n] + [lines[n]] == lines &&
            forall l <- lines[..n] :: '\n' !in l
  {
    hide DumpLine, SeenLines, RStrip;
    SeenLength(ds);
    forall i | 0 <= i < |ds|
      ensures SeenLines(ds)[i] == if i < |ds| - 1 then DumpLines(ds)[i] else RStrip(DumpLines(ds)[i])
      ensures '\n' !in SeenLines(ds)[i]
    {
      SeenIsDumped(ds, i);
    }
  }

  /** `restore` splits the stripped text into the lines of the dump, the last one stripped. */
  lemma DumpSplits(ds: seq<seq<Byte>>)
    requires ds != [] && forall d <- ds :: 0 < |d| <= 16
    ensures Split(Strip(JoinLines(DumpLines(ds)))) == SeenLines(ds)
  {
    hide DumpLine, SeenLines, StartsDark, RStrip, Split, Strip, JoinLines;
    var n := |ds| - 1;
    SeenInOrder(ds);
    SeenIsDumped(ds, n);
    LineStart(0, ds[0]);
    LineStart(n * 16, ds[n]);
    LineNotEmpty(n * 16, ds[n]);
    LastLineStrips(n * 16, ds[n]);
    StripThenSplit(DumpLines(ds)[..n], DumpLines(ds)[n]);
  }

  lemma LineNotEmpty(addr: nat, d: seq<Byte>)
    requires |d| <= 16
    ensures DumpLine(addr, d) != []
  {
    hide Address, HexPart, Padding, Spaces, Ascii;
  }

  /** What `restore` makes of line `i`. */
  lemma LineDecodes(ds: seq<seq<Byte>>, i: nat)
    requires i < |ds| && forall d <- ds :: 0 < |d| <= 16
    ensures RestoreLine(SeenLines(ds)[i]) ==
            if i * 16 >= ADDRESS_LIMIT || (i == |ds| - 1 && ds[i] == [0x20]) then None
            else Some(ds[i])
  {
    hide StrippedBody, FullBody, Address, IsSpace, IsBody, Gapped, Select, FromHex, RestoreLine;
    var d, body := ds[i], SeenBody(ds, i);
    BodiesDiffer(d);
    BodyDecodes(body, d);
    AddressedLine(i * 16, body);
    assert |d| == 1 && d[0] == 0x20 <==> d == [0x20];
  }

  // ----- the whole dump -----

  lemma {:induction false} FlatSnoc<T>(ss: seq<seq<T>>, x: seq<T>)
    ensures Flat(ss + [x]) == Flat(ss) + x
  {
    if ss == [] {
      assert ss + [x] == [x];
    } else {
      assert (ss + [x])[1..] == ss[1..] + [x];
      FlatSnoc(ss[1..], x);
    }
  }

  lemma {:induction false} AllDecode(lines: seq<string>, ds: seq<seq<Byte>>)
    requires |lines| == |ds| && forall i :: 0 <= i < |ds| ==> RestoreLine(lines[i]) == Some(ds[i])
    ensures RestoreLines(lines) == Some(Flat(ds))
  {
    hide RestoreLine;
    if lines != [] {
      var n := |ds| - 1;
      AllDecode(lines[..n], ds[..n]);
      FlatSnoc(ds[..n], ds[n]);
      assert ds[..n] + [ds[n]] == ds;
    }
  }

  lemma OneFails(lines: seq<string>, i: nat)
    requires i < |lines| && RestoreLine(lines[i]).None?
    ensures RestoreLines(lines).None?
  {
    assert lines[..i + 1][i] == lines[i];
    FailureStays(lines, i + 1);
  }

  lemma OneChunk(s: seq<Byte>)
    requires 0 < |s| <= 16
    ensures Chunked(s, 16) == [s] && Flat([s]) == s
    ensures s == [0x20] <==> |s| % 16 == 1 && s[|s| - 1] == 0x20
  {
    assert s + [] == s;
    assert Flat([s]) == s + [];
  }

  lemma MoreChunks(s: seq<Byte>)
    requires |s| > 16
    ensures Chunked(s, 16) == [s[..16]] + Chunked(s[16..], 16)
  {
  }

  lemma ModSixteen(n: nat)
    requires n >= 16
    ensures (n - 16) % 16 == n % 16
  {
  }

  lemma {:induction false} ChunkFacts(s: seq<Byte>)
    requires s != []
    ensures var cs := Chunked(s, 16);
            cs != [] && Flat(cs) == s && 16 * (|cs| - 1) < |s| <= 16 * |cs| &&
            (cs[|cs| - 1] == [0x20] <==> |s| % 16 == 1 && s[|s| - 1] == 0x20)
    decreases |s|
  {
    hide Chunked;
    if |s| <= 16 {
      OneChunk(s);
    } else {
      var tail := s[16..];
      ChunkFacts(tail);
      MoreChunks(s);
      ModSixteen(|s|);
      var cs, rest := Chunked(s, 16), Chunked(tail, 16);
      assert cs[1..] == rest;
      assert s[..16] + tail == s;
      assert cs[|cs| - 1] == rest[|rest| - 1] && tail[|tail| - 1] == s[|s| - 1];
    }
  }

  /** The dumps that read back: some data, addresses of fewer than 32 digits, no lone space on the last line. */
  predicate ReadsBack(data: seq<Byte>) {
    data != [] && |data| <= ADDRESS_LIMIT && !(|data| % 16 == 1 && data[|data| - 1] == 0x20)
  }

  /** For every byte string, reading the dump back gives the bytes, or raises exactly in the cases left out. */
  lemma DumpReadsBack(data: seq<Byte>)
    ensures Restored(DumpOf(data)) == if ReadsBack(data) then Some(data) else None
  {
    hide RestoreLines, RestoreLine, SeenLines, DumpLines, Split, Strip, JoinLines, Chunked, Flat, Pow16;
    if data == [] {
      EmptyDump();
    } else {
      var ds := Chunked(data, 16);
      SmallChunks(data, 16);
      ChunkFacts(data);
      DumpSplits(ds);
      var lines, n := SeenLines(ds), |ds| - 1;
      SeenLength(ds);
      LastAddress(n, |data|);
      forall i | 0 <= i <= n
        ensures RestoreLine(lines[i]) ==
                if i * 16 >= ADDRESS_LIMIT || (i == n && ds[i] == [0x20]) then None else Some(ds[i])
      {
        LineDecodes(ds, i);
      }
      if ReadsBack(data) {
        AllDecode(lines, ds);
      } else {
        OneFails(lines, n);
      }
    }
  }

  /** The last address is within the limit when the data is. */
  lemma LastAddress(n: nat, len: nat)
    requires 16 * n < len <= 16 * (n + 1)
    ensures n * 16 < ADDRESS_LIMIT <==> len <= ADDRESS_LIMIT
  {
    hide Pow16;
    PowStep(30);
  }

  lemma PowStep(k: nat)
    ensures Pow16(k + 1) == 16 * Pow16(k)
  {
  }

  lemma SeenLength(ds: seq<seq<Byte>>)
    requires forall d <- ds :: 0 < |d| <= 16
    ensures |SeenLines(ds)| == |ds|
  {
  }

  lemma EmptyDump()
    ensures Restored(DumpOf([])).None?
  {
    assert DumpLines(Chunked([], 16)) == [];
    assert Split("") == [""];
    assert RestoreLine("").None?;
    OneFails([""], 0);
  }
}
