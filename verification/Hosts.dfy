/**
  The hosts file manager: reading a file into lines and entries, writing them back, and `replace`
  for one hostname.  Which strings are IP addresses is left to an uninterpreted predicate; disk
  access is not part of this model, the file is a string.  Parsed lines are values here.
 */
module Hosts {
  import opened Options
  import opened Text

  datatype HostEntry = HostEntry(ip: string, hostnames: seq<string>, comment: string, disabled: bool)
  datatype ParsedLine = ParsedLine(raw: string, entry: Option<HostEntry>, dirty: bool)

  function Base(e: HostEntry): string {
    e.ip + "\t" + Join(e.hostnames) + (if e.comment != "" then "\t# " + e.comment else "")
  }

  function Render(e: HostEntry): string {
    if e.disabled then "# " + Base(e) else Base(e)
  }

  function ParseLine(raw: string, isIp: string -> bool): ParsedLine {
    var stripped := LStrip(raw);
    if stripped == [] || "##" <= stripped then ParsedLine(raw, None, false) else
    var disabled := stripped[0] == '#';
    ParsedLine(raw, ParseContent(if disabled then LStrip(stripped[1..]) else stripped, disabled, isIp), false)
  }

  /** An entry needs an address and a hostname before the first '#'. */
  function ParseContent(content: string, disabled: bool, isIp: string -> bool): Option<HostEntry> {
    var n := Find(content, '#');
    var tokens := Words(content[..n]);
    if |tokens| < 2 || !isIp(tokens[0]) then None
    else Some(HostEntry(tokens[0], tokens[1..], if n < |content| then Strip(content[n + 1..]) else "", disabled))
  }

  function ParseAll(lines: seq<string>, isIp: string -> bool): seq<ParsedLine> {
    seq(|lines|, i requires 0 <= i < |lines| => ParseLine(lines[i], isIp))
  }

  function LineText(p: ParsedLine): string {
    if p.dirty && p.entry.Some? then Render(p.entry.value) + "\n" else p.raw
  }

  function Texts(ps: seq<ParsedLine>): seq<string> {
    seq(|ps|, i requires 0 <= i < |ps| => LineText(ps[i]))
  }

  // ----- parsing recovers what was rendered -----

  /** Its address and hostnames are words, and its comment has no space around it. */
  predicate Shaped(e: HostEntry) {
    IsToken(e.ip) && e.hostnames != [] && (forall h <- e.hostnames :: IsToken(h)) && IsStripped(e.comment)
  }

  predicate WellFormed(e: HostEntry, isIp: string -> bool) {
    Shaped(e) && isIp(e.ip)
  }

  /** What is left of a shaped entry when it is read: all of it if its address is one. */
  function Readable(e: HostEntry, isIp: string -> bool): Option<HostEntry> {
    if isIp(e.ip) then Some(e) else None
  }

  /** The entry made of the words before the first '#' sign and the text after it. */
  function FromWords(tokens: seq<string>, comment: string, disabled: bool, isIp: string -> bool): Option<HostEntry> {
    if |tokens| < 2 || !isIp(tokens[0]) then None else Some(HostEntry(tokens[0], tokens[1..], comment, disabled))
  }

  lemma ParseWithComment(before: string, after: string, disabled: bool, isIp: string -> bool)
    requires '#' !in before
    ensures ParseContent(before + "#" + after, disabled, isIp) == FromWords(Words(before), Strip(after), disabled, isIp)
    ensures ParseContent(before, disabled, isIp) == FromWords(Words(before), "", disabled, isIp)
  {
    hide Words, Strip;
    var content := before + "#" + after;
    FindFirst(before, '#', after);
    assert content[..|before|] == before && content[|before| + 1..] == after;
    assert before[..|before|] == before;
  }

  lemma ParseContentOfBase(e: HostEntry, isIp: string -> bool)
    requires Shaped(e)
    ensures ParseContent(Base(e) + "\n", e.disabled, isIp) == Readable(e, isIp)
  {
    hide Words, Join, IsSpace, ParseContent, Strip;
    var plain := e.ip + "\t" + Join(e.hostnames);
    JoinHasNo(e.hostnames, '#');
    assert '#' !in plain;
    var tokens := [e.ip] + e.hostnames;
    assert tokens[1..] == e.hostnames;
    if e.comment == "" {
      assert Base(e) + "\n" == plain + "\n";
      ParseWithComment(plain + "\n", "", e.disabled, isIp);
      BaseWords(e.ip, e.hostnames, "\n");
    } else {
      var after := " " + e.comment + "\n";
      assert Base(e) + "\n" == (plain + "\t") + "#" + after;
      ParseWithComment(plain + "\t", after, e.disabled, isIp);
      BaseWords(e.ip, e.hostnames, "\t");
      StripPadded(e.comment);
    }
  }

  lemma BaseWords(ip: string, names: seq<string>, end: string)
    requires IsToken(ip) && (forall h <- names :: IsToken(h)) && (end == "\n" || end == "\t")
    ensures Words(ip + "\t" + Join(names) + end) == [ip] + names
  {
    var rest := "\t" + (Join(names) + end);
    assert ip + "\t" + Join(names) + end == ip + rest;
    WordFirst(ip, rest);
    assert rest[1..] == Join(names) + end;
    JoinedWords(names, end);
    assert end[1..] == [];
    assert Words(end) == [];
    assert names + [] == names;
  }

  lemma LStripSpace(s: string)
    requires s != [] && !IsSpace(s[0])
    ensures LStrip(" " + s) == s && LStrip(s) == s
  {
    assert (" " + s)[1..] == s;
  }

  /** Every entry with an address survives being rendered and parsed again; without one it is no entry. */
  lemma RenderThenParse(e: HostEntry, isIp: string -> bool)
    requires Shaped(e)
    ensures ParseLine(Render(e) + "\n", isIp).entry == Readable(e, isIp)
  {
    hide Join, ParseContent, IsSpace;
    ParseContentOfBase(e, isIp);
    var line := Base(e) + "\n";
    assert line[0] == e.ip[0] && e.ip[0] in e.ip;
    LStripSpace(line);
    if e.disabled {
      var text := "#" + (" " + line);
      assert text == Render(e) + "\n";
      assert text[1..] == " " + line;
      HashFirst(text);
    }
  }

  lemma HashFirst(s: string)
    requires s != [] && s[0] == '#'
    ensures LStrip(s) == s
  {
  }

  // ----- no entry holds the newline that ends its line -----

  predicate IsTail(s: string) {
    forall i :: 0 <= i < |s| - 1 ==> s[i] != '\n'
  }

  lemma {:induction false} LStripKeepsTail(s: string)
    requires IsTail(s)
    ensures IsTail(LStrip(s)) && |LStrip(s)| <= |s|
  {
    if s != [] && IsSpace(s[0]) {
      LStripKeepsTail(s[1..]);
    }
  }

  lemma RStripTail(s: string)
    requires IsTail(s)
    ensures '\n' !in RStrip(s)
  {
    if s != [] && IsSpace(s[|s| - 1]) {
      RStripIsPrefix(s[..|s| - 1]);
    }
  }

  /** Stripping removes the newline that ends a line. */
  lemma CommentInLine(content: string, n: nat)
    requires IsTail(content) && n < |content|
    ensures '\n' !in Strip(content[n + 1..])
  {
    LStripKeepsTail(content[n + 1..]);
    RStripTail(LStrip(content[n + 1..]));
  }

  /** What stands before the '#' sign and after it. */
  lemma ContentIsWellFormed(content: string, disabled: bool, isIp: string -> bool)
    requires ParseContent(content, disabled, isIp).Some?
    ensures WellFormed(ParseContent(content, disabled, isIp).value, isIp)
    ensures IsTail(content) ==> '\n' !in ParseContent(content, disabled, isIp).value.comment
  {
    hide IsSpace;
    var n := Find(content, '#');
    var tokens := Words(content[..n]);
    WordsAreTokens(content[..n]);
    assert tokens[0] in tokens;
    if n < |content| {
      StripStrips(content[n + 1..]);
      if IsTail(content) {
        CommentInLine(content, n);
      }
    }
  }

  lemma RenderHasNoNewline(e: HostEntry)
    requires '\n' !in e.ip && (forall h <- e.hostnames :: IsToken(h)) && '\n' !in e.comment
    ensures '\n' !in Render(e)
  {
    forall h | h in e.hostnames ensures '\n' !in h {
      assert IsToken(h);
    }
    JoinHasNo(e.hostnames, '\n');
  }

  /** What parsing yields is well formed, so rewriting a line never changes its entry. */
  lemma ParsedIsWellFormed(raw: string, isIp: string -> bool)
    requires ParseLine(raw, isIp).entry.Some?
    ensures WellFormed(ParseLine(raw, isIp).entry.value, isIp)
    ensures IsLine(raw) ==> '\n' !in ParseLine(raw, isIp).entry.value.comment
  {
    hide IsSpace, ParseContent, WellFormed;
    var stripped := LStrip(raw);
    var content := if stripped[0] == '#' then LStrip(stripped[1..]) else stripped;
    ContentIsWellFormed(content, stripped[0] == '#', isIp);
    if IsLine(raw) {
      assert IsTail(raw) by {
        forall i | 0 <= i < |raw| - 1 ensures raw[i] != '\n' {
          assert raw[i] in raw[..|raw| - 1];
        }
      }
      LStripKeepsTail(raw);
      if stripped[0] == '#' {
        LStripKeepsTail(stripped[1..]);
      }
    }
  }

  /** The text of an entry: address, tab, hostnames with spaces between them, and the comment after a tab. */
  lemma RenderedText(ip: string, a: string, b: string, comment: string)
    ensures Render(HostEntry(ip, [a, b], "", false)) == ip + "\t" + a + " " + b
    ensures comment != "" ==>
              Render(HostEntry(ip, [a, b], comment, true)) == "# " + ip + "\t" + a + " " + b + "\t# " + comment
  {
    assert [a, b][1..] == [b];
    assert Join([a, b]) == a + " " + b;
    assert ip + "\t" + (a + " " + b) == ip + "\t" + a + " " + b;
    var tail := "\t# " + comment;
    assert "# " + (ip + "\t" + a + " " + b + tail) == "# " + ip + "\t" + a + " " + b + tail;
  }
}
