/** The string operations the hosts file manager leans on, as Python defines them. */
module Text {
  /** What `str.split()` and `str.strip()` take for white space. */
  predicate IsSpace(c: char) {
    var n := c as int;
    9 <= n <= 13 || 28 <= n <= 32 || n == 0x85 || n == 0xA0 || n == 0x1680 || 0x2000 <= n <= 0x200A ||
    n == 0x2028 || n == 0x2029 || n == 0x202F || n == 0x205F || n == 0x3000
  }

  function LStrip(s: string): string {
    if s != [] && IsSpace(s[0]) then LStrip(s[1..]) else s
  }

  function RStrip(s: string): string {
    if s != [] && IsSpace(s[|s| - 1]) then RStrip(s[..|s| - 1]) else s
  }

  function Strip(s: string): string {
    RStrip(LStrip(s))
  }

  /** How many characters come before the first white space. */
  function WordLength(s: string): (n: nat)
    ensures n <= |s| && (forall i :: 0 <= i < n ==> !IsSpace(s[i])) && (n < |s| ==> IsSpace(s[n]))
  {
    if s == [] || IsSpace(s[0]) then 0 else 1 + WordLength(s[1..])
  }

  /** `s.split()` */
  function Words(s: string): seq<string>
    decreases |s|
  {
    if s == [] then []
    else if IsSpace(s[0]) then Words(s[1..])
    else [s[..WordLength(s)]] + Words(s[WordLength(s)..])
  }

  function Join(ws: seq<string>): string {
    if ws == [] then "" else if |ws| == 1 then ws[0] else ws[0] + " " + Join(ws[1..])
  }

  /** Where `c` first occurs, or the length. */
  function Find(s: string, c: char): (n: nat)
    ensures n <= |s| && c !in s[..n] && (n < |s| ==> s[n] == c)
  {
    if s == [] || s[0] == c then 0 else
    var n := 1 + Find(s[1..], c);
    assert s[..n] == [s[0]] + s[1..][..n - 1];
    n
  }

  /** The lines of a text, each with its newline, as `readlines` returns them. */
  function Lines(s: string): seq<string>
    decreases |s|
  {
    if s == [] then [] else
    var n := Find(s, '\n');
    if n == |s| then [s] else [s[..n + 1]] + Lines(s[n + 1..])
  }

  function Concat(ls: seq<string>): string {
    if ls == [] then "" else ls[0] + Concat(ls[1..])
  }

  /** A non-empty string with at most a final newline. */
  predicate IsLine(l: string) {
    l != [] && '\n' !in l[..|l| - 1]
  }

  predicate IsEnded(l: string) {
    l != [] && l[|l| - 1] == '\n'
  }

  /** Lines of which only the last may lack its newline. */
  predicate AreLines(ls: seq<string>) {
    forall i :: 0 <= i < |ls| ==> IsLine(ls[i]) && (i < |ls| - 1 ==> IsEnded(ls[i]))
  }

  lemma {:induction false} FindFirst(a: string, c: char, b: string)
    requires c !in a
    ensures Find(a + [c] + b, c) == |a|
    ensures Find(a, c) == |a|
  {
    if a != [] {
      FindFirst(a[1..], c, b);
      assert (a + [c] + b)[1..] == a[1..] + [c] + b;
    }
  }

  lemma OneMoreLine(l: string, rest: seq<string>)
    requires IsLine(l) && (rest != [] ==> IsEnded(l)) && AreLines(rest)
    ensures AreLines([l] + rest)
  {
    hide IsLine, IsEnded;
  }

  lemma {:induction false} LinesAreLines(s: string)
    ensures AreLines(Lines(s)) && Concat(Lines(s)) == s
    decreases |s|
  {
    hide AreLines;
    OneMoreLineNone();
    if s != [] {
      var n := Find(s, '\n');
      var l, rest := if n == |s| then s else s[..n + 1], if n == |s| then [] else s[n + 1..];
      LinesAreLines(rest);
      assert IsLine(l) by {
        assert l[..|l| - 1] == s[..n][..|l| - 1];
        forall c | c in l[..|l| - 1] ensures c in s[..n] {}
      }
      OneMoreLine(l, Lines(rest));
      assert Lines(s) == [l] + Lines(rest);
      assert s == l + rest;
    }
  }

  lemma OneMoreLineNone()
    ensures AreLines([]) && Lines("") == []
  {
  }

  lemma LineFirst(l: string, rest: string)
    requires IsLine(l) && (IsEnded(l) || rest == "")
    ensures Lines(l + rest) == [l] + Lines(rest)
  {
    if IsEnded(l) {
      var body := l[..|l| - 1];
      var s := body + ['\n'] + rest;
      assert l == body + ['\n'] && l + rest == s;
      FindFirst(body, '\n', rest);
      assert s[..|l|] == l && s[|l|..] == rest;
    } else {
      assert l == l[..|l| - 1] + [l[|l| - 1]];
      FindFirst(l, '\n', "");
      assert l + rest == l;
    }
  }

  lemma RestAreLines(ls: seq<string>)
    requires AreLines(ls) && ls != []
    ensures IsLine(ls[0]) && AreLines(ls[1..]) && (ls[1..] != [] ==> IsEnded(ls[0]))
  {
    hide IsLine, IsEnded;
    forall i | 0 <= i < |ls| - 1 ensures IsLine(ls[1..][i]) && (i < |ls| - 2 ==> IsEnded(ls[1..][i])) {
      assert ls[1..][i] == ls[i + 1];
    }
  }

  lemma {:induction false} LinesOfConcat(ls: seq<string>)
    requires AreLines(ls)
    ensures Lines(Concat(ls)) == ls
  {
    hide AreLines, IsLine, IsEnded, Lines;
    OneMoreLineNone();
    if ls != [] {
      RestAreLines(ls);
      LinesOfConcat(ls[1..]);
      LineFirst(ls[0], Concat(ls[1..]));
      assert [ls[0]] + ls[1..] == ls;
    }
  }

  lemma {:induction false} ConcatAppend(a: seq<string>, b: seq<string>)
    ensures Concat(a + b) == Concat(a) + Concat(b)
  {
    if a == [] {
      assert a + b == b;
    } else {
      assert (a + b)[1..] == a[1..] + b;
      ConcatAppend(a[1..], b);
    }
  }

  // ----- words -----

  /** A word that can stand in a hosts entry. */
  predicate IsToken(t: string) {
    t != [] && forall c <- t :: !IsSpace(c) && c != '#'
  }

  predicate Breaks(s: string) {
    s == [] || IsSpace(s[0])
  }

  lemma WordFirst(t: string, rest: string)
    requires IsToken(t) && Breaks(rest)
    ensures Words(t + rest) == [t] + Words(rest)
  {
    var s := t + rest;
    assert s[0] in t;
    WordEnds(t, rest);
    assert s[..|t|] == t && s[|t|..] == rest;
  }

  lemma {:induction false} WordEnds(t: string, rest: string)
    requires (forall c <- t :: !IsSpace(c)) && Breaks(rest)
    ensures WordLength(t + rest) == |t|
  {
    if t == [] {
      assert t + rest == rest;
    } else {
      WordEnds(t[1..], rest);
      assert (t + rest)[1..] == t[1..] + rest;
    }
  }

  lemma SpaceFirst(c: char, rest: string)
    requires IsSpace(c)
    ensures Words([c] + rest) == Words(rest)
  {
    assert ([c] + rest)[1..] == rest;
  }

  lemma {:induction false} JoinedWords(ws: seq<string>, rest: string)
    requires (forall w <- ws :: IsToken(w)) && Breaks(rest)
    ensures Words(Join(ws) + rest) == ws + Words(rest)
  {
    hide Words, IsToken;
    if ws == [] {
      assert Join(ws) + rest == rest;
    } else {
      assert ws[0] in ws;
      if |ws| == 1 {
        WordFirst(ws[0], rest);
      } else {
        var tail := " " + (Join(ws[1..]) + rest);
        assert Join(ws) + rest == ws[0] + tail;
        WordFirst(ws[0], tail);
        SpaceFirst(' ', Join(ws[1..]) + rest);
        JoinedWords(ws[1..], rest);
        assert [ws[0]] + (ws[1..] + Words(rest)) == ws + Words(rest);
      }
    }
  }

  /** Words of a text without '#' are tokens. */
  lemma {:induction false} WordsAreTokens(s: string)
    requires '#' !in s
    ensures forall w <- Words(s) :: IsToken(w)
    decreases |s|
  {
    if s != [] {
      if IsSpace(s[0]) {
        WordsAreTokens(s[1..]);
      } else {
        var n := WordLength(s);
        WordsAreTokens(s[n..]);
        forall c | c in s[..n] ensures !IsSpace(c) && c != '#' {
          assert c in s;
        }
      }
    }
  }

  lemma {:induction false} JoinHasNo(ws: seq<string>, c: char)
    requires c != ' ' && forall w <- ws :: c !in w
    ensures c !in Join(ws)
  {
    if ws != [] {
      assert ws[0] in ws;
      JoinHasNo(ws[1..], c);
    }
  }

  // ----- stripping -----

  predicate IsStripped(s: string) {
    s == [] || (!IsSpace(s[0]) && !IsSpace(s[|s| - 1]))
  }

  lemma {:induction false} LStripIsSuffix(s: string)
    ensures exists i :: 0 <= i <= |s| && LStrip(s) == s[i..]
    ensures LStrip(s) == [] || !IsSpace(LStrip(s)[0])
  {
    if s != [] && IsSpace(s[0]) {
      LStripIsSuffix(s[1..]);
      var i :| 0 <= i <= |s[1..]| && LStrip(s[1..]) == s[1..][i..];
      assert LStrip(s) == s[i + 1..];
    } else {
      assert s == s[0..];
    }
  }

  lemma {:induction false} RStripIsPrefix(s: string)
    ensures exists i :: 0 <= i <= |s| && RStrip(s) == s[..i]
    ensures RStrip(s) == [] || !IsSpace(RStrip(s)[|RStrip(s)| - 1])
  {
    if s != [] && IsSpace(s[|s| - 1]) {
      RStripIsPrefix(s[..|s| - 1]);
      var i :| 0 <= i <= |s| - 1 && RStrip(s[..|s| - 1]) == s[..|s| - 1][..i];
      assert RStrip(s) == s[..i];
    } else {
      assert s == s[..|s|];
    }
  }

  lemma StripStrips(s: string)
    ensures IsStripped(Strip(s)) && forall c <- Strip(s) :: c in s
  {
    LStripIsSuffix(s);
    RStripIsPrefix(LStrip(s));
  }

  /** Padding by one space and a newline strips away again. */
  lemma StripPadded(s: string)
    requires IsStripped(s) && s != []
    ensures Strip(" " + s + "\n") == s
  {
    var p := " " + s + "\n";
    assert p[1..] == s + "\n";
    assert LStrip(p) == s + "\n";
    assert (s + "\n")[..|s|] == s;
    assert RStrip(s + "\n") == RStrip(s);
  }
}
