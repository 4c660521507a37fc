/**
  `replace` for one hostname, judged on the file as it is read back: which addresses the hostnames
  are bound to, which entries are commented out, and which lines keep their text.
 */
module HostsReplace {
  import opened Hosts
  import opened Options
  import opened StableSort
  import opened Text

  // ----- one line -----

  /** An active entry that lists the hostname. */
  predicate Mentions(p: ParsedLine, h: string) {
    p.entry.Some? && !p.entry.value.disabled && h in p.entry.value.hostnames
  }

  function Commented(p: ParsedLine): ParsedLine
    requires p.entry.Some?
  {
    p.(entry := Some(p.entry.value.(disabled := true)), dirty := true)
  }

  function Without(names: seq<string>, h: string): (r: seq<string>)
    ensures forall n :: n in r <==> n in names && n != h
  {
    if names == [] then []
    else if names[0] == h then Without(names[1..], h)
    else [names[0]] + Without(names[1..], h)
  }

  function Other(h: string): string -> bool {
    (n: string) => n != h
  }

  /** The other hostnames, in order and as often as before. */
  lemma {:induction false} WithoutIsFilter(names: seq<string>, h: string)
    ensures Without(names, h) == Filter(names, Other(h))
  {
    if names != [] {
      WithoutIsFilter(names[1..], h);
      assert [names[0]] + names[1..] == names;
      FilterAppend([names[0]], names[1..], Other(h));
      FilterOne(names[0], Other(h));
    }
  }

  /** Gives the hostname a line of its own, unless the entry lists nothing else. */
  function SplitHostname(p: ParsedLine, ip: string, h: string): seq<ParsedLine>
    requires p.entry.Some?
  {
    var e := p.entry.value;
    var rest := Without(e.hostnames, h);
    if rest == [] then [p] else
    [p.(entry := Some(e.(hostnames := rest)), dirty := true),
     ParsedLine("", Some(HostEntry(if ip != "" then ip else e.ip, [h], "", false)), true)]
  }

  function ReplaceLine(p: ParsedLine, ip: string, h: string, keep: bool): seq<ParsedLine> {
    if !Mentions(p, h) then [p] else
    var e := p.entry.value;
    (if keep then [Commented(p)] else []) +
    if |e.hostnames| > 1 then SplitHostname(p, ip, h)
    else [p.(entry := Some(e.(ip := ip)), dirty := true)]
  }

  function ReplaceAll(ps: seq<ParsedLine>, ip: string, h: string, keep: bool): seq<ParsedLine> {
    if ps == [] then [] else
    ReplaceAll(ps[..|ps| - 1], ip, h, keep) + ReplaceLine(ps[|ps| - 1], ip, h, keep)
  }

  /** The file after the call. */
  function Replaced(content: string, ip: string, h: string, keep: bool, isIp: string -> bool): string {
    Concat(Texts(ReplaceAll(ParseAll(Lines(content), isIp), ip, h, keep)))
  }

  /** The edit writes the address on a line. */
  predicate Takes(p: ParsedLine, h: string) {
    Mentions(p, h) && (|p.entry.value.hostnames| == 1 || Without(p.entry.value.hostnames, h) != [])
  }

  // ----- what is written -----

  lemma RawIsKept(raw: string, isIp: string -> bool)
    ensures ParseLine(raw, isIp).raw == raw && !ParseLine(raw, isIp).dirty
  {
  }

  /** Where a piece keeps the text of its line it comes last. */
  lemma OnlyTheLastIsRaw(raw: string, ip: string, h: string, keep: bool, isIp: string -> bool)
    ensures var pieces := ReplaceLine(ParseLine(raw, isIp), ip, h, keep);
            pieces != [] &&
            forall j :: 0 <= j < |pieces| ==> pieces[j].dirty || (j == |pieces| - 1 && LineText(pieces[j]) == raw)
  {
    hide ParseLine;
    RawIsKept(raw, isIp);
  }

  /** The text is one line, with its newline if it is rendered. */
  predicate OneLine(q: ParsedLine) {
    IsLine(LineText(q)) && (q.dirty ==> IsEnded(LineText(q)))
  }

  lemma RenderedIsOneLine(q: ParsedLine)
    requires q.entry.Some? && q.dirty && '\n' !in q.entry.value.ip && '\n' !in q.entry.value.comment
    requires forall n <- q.entry.value.hostnames :: IsToken(n)
    ensures OneLine(q)
  {
    hide Render;
    RenderHasNoNewline(q.entry.value);
    var t := Render(q.entry.value);
    assert (t + "\n")[..|t|] == t;
  }

  /** Every piece is one line, unless the edit writes an address that is not. */
  lemma PiecesAreLines(raw: string, ip: string, h: string, keep: bool, isIp: string -> bool)
    requires IsLine(raw) && ('\n' !in ip || !Takes(ParseLine(raw, isIp), h))
    ensures forall q <- ReplaceLine(ParseLine(raw, isIp), ip, h, keep) :: OneLine(q)
  {
    hide ParseLine, IsLine, IsEnded, Render, IsSpace;
    var p := ParseLine(raw, isIp);
    RawIsKept(raw, isIp);
    if Mentions(p, h) {
      ParsedIsWellFormed(raw, isIp);
      assert IsToken(h) && '\n' !in p.entry.value.ip by {
        TokenHasNoNewline(p.entry.value.ip);
      }
      forall q | q in ReplaceLine(p, ip, h, keep) ensures OneLine(q) {
        if q.dirty {
          RenderedIsOneLine(q);
        }
      }
    }
  }

  lemma TokenHasNoNewline(t: string)
    requires IsToken(t)
    ensures '\n' !in t
  {
    assert IsSpace('\n');
  }

  /** Every piece ends its line, but for a file whose last line is open. */
  lemma {:induction false} ReplacedAreLines(lines: seq<string>, ip: string, h: string, keep: bool, isIp: string -> bool)
    requires AreLines(lines)
    requires '\n' !in ip || forall raw <- lines :: !Takes(ParseLine(raw, isIp), h)
    ensures var qs := ReplaceAll(ParseAll(lines, isIp), ip, h, keep);
            AreLines(Texts(qs)) &&
            (lines == [] || IsEnded(lines[|lines| - 1]) ==> forall q <- qs :: IsEnded(LineText(q))) &&
            forall q <- qs :: OneLine(q)
  {
    hide ParseLine, ReplaceLine, Takes, LineText, IsLine, IsEnded;
    if lines != [] {
      var init, raw := lines[..|lines| - 1], lines[|lines| - 1];
      assert ParseAll(lines, isIp)[..|lines| - 1] == ParseAll(init, isIp);
      assert raw in lines && forall r <- init :: r in lines;
      ReplacedAreLines(init, ip, h, keep, isIp);
      assert init != [] ==> IsEnded(lines[|init| - 1]);
      var before := ReplaceAll(ParseAll(init, isIp), ip, h, keep);
      var pieces := ReplaceLine(ParseLine(raw, isIp), ip, h, keep);
      PiecesAreLines(raw, ip, h, keep, isIp);
      OnlyTheLastIsRaw(raw, ip, h, keep, isIp);
      LinesInOrder(before, pieces, raw);
    }
  }

  lemma LinesInOrder(before: seq<ParsedLine>, pieces: seq<ParsedLine>, raw: string)
    requires forall q <- before :: OneLine(q) && IsEnded(LineText(q))
    requires forall q <- pieces :: OneLine(q)
    requires forall j :: 0 <= j < |pieces| ==> pieces[j].dirty || (j == |pieces| - 1 && LineText(pieces[j]) == raw)
    requires pieces != []
    ensures AreLines(Texts(before + pieces)) && forall q <- before + pieces :: OneLine(q)
    ensures IsEnded(raw) ==> forall q <- before + pieces :: IsEnded(LineText(q))
  {
    hide LineText, IsLine, IsEnded;
    var qs := before + pieces;
    var texts := Texts(qs);
    forall i | 0 <= i < |texts| ensures IsLine(texts[i]) && (i < |texts| - 1 ==> IsEnded(texts[i])) {
      assert texts[i] == LineText(qs[i]);
      if i < |before| {
        assert qs[i] == before[i] && before[i] in before;
      } else {
        assert qs[i] == pieces[i - |before|] && pieces[i - |before|] in pieces;
      }
      assert OneLine(qs[i]);
    }
    if IsEnded(raw) {
      forall q | q in qs ensures IsEnded(LineText(q)) {
        if q !in before {
          var j :| 0 <= j < |pieces| && pieces[j] == q;
        }
      }
    }
  }

  /** The file holds the texts of the edited lines as its lines. */
  lemma WrittenLines(content: string, ip: string, h: string, keep: bool, isIp: string -> bool)
    requires '\n' !in ip || forall raw <- Lines(content) :: !Takes(ParseLine(raw, isIp), h)
    ensures Lines(Replaced(content, ip, h, keep, isIp))
            == Texts(ReplaceAll(ParseAll(Lines(content), isIp), ip, h, keep))
  {
    hide ParseLine, ReplaceAll, Takes, LineText, AreLines, ParseAll, OneLine;
    LinesAreLines(content);
    ReplacedAreLines(Lines(content), ip, h, keep, isIp);
    LinesOfConcat(Texts(ReplaceAll(ParseAll(Lines(content), isIp), ip, h, keep)));
  }

  // ----- what is read back -----

  /** A rendered line has words for address and hostnames; another has the entry of its text. */
  predicate Sound(q: ParsedLine, isIp: string -> bool) {
    if q.dirty then q.entry.Some? && Shaped(q.entry.value) else q.entry == ParseLine(q.raw, isIp).entry
  }

  /** The entry of a line as far as its address is one. */
  function ReadAs(q: ParsedLine, isIp: string -> bool): Option<HostEntry> {
    if q.entry.Some? then Readable(q.entry.value, isIp) else None
  }

  lemma SoundIsReadBack(q: ParsedLine, isIp: string -> bool)
    requires Sound(q, isIp)
    ensures ParseLine(LineText(q), isIp).entry == ReadAs(q, isIp)
  {
    hide Shaped, ParseLine, Render;
    if q.dirty {
      RenderThenParse(q.entry.value, isIp);
    } else if q.entry.Some? {
      ParsedIsWellFormed(q.raw, isIp);
    }
  }

  lemma PiecesAreSound(raw: string, ip: string, h: string, keep: bool, isIp: string -> bool)
    requires IsToken(ip)
    ensures forall q <- ReplaceLine(ParseLine(raw, isIp), ip, h, keep) :: Sound(q, isIp)
  {
    hide ParseLine;
    var p := ParseLine(raw, isIp);
    RawIsKept(raw, isIp);
    if Mentions(p, h) {
      ParsedIsWellFormed(raw, isIp);
      var e := p.entry.value;
      assert IsToken(h);
      assert forall n <- Without(e.hostnames, h) :: IsToken(n);
    }
  }

  /** Entries that are disabled, or were given a proper address, are read whole. */
  predicate Addressed(q: ParsedLine, ip: string, isIp: string -> bool) {
    q.entry.Some? && (q.entry.value.disabled || isIp(ip)) ==> isIp(q.entry.value.ip)
  }

  lemma PiecesAreAddressed(raw: string, ip: string, h: string, keep: bool, isIp: string -> bool)
    ensures forall q <- ReplaceLine(ParseLine(raw, isIp), ip, h, keep) :: Addressed(q, ip, isIp)
  {
    hide ParseLine, Shaped;
    if ParseLine(raw, isIp).entry.Some? {
      ParsedIsWellFormed(raw, isIp);
    }
  }

  lemma {:induction false} AllAreSound(lines: seq<string>, ip: string, h: string, keep: bool, isIp: string -> bool)
    requires IsToken(ip)
    ensures forall q <- ReplaceAll(ParseAll(lines, isIp), ip, h, keep) :: Sound(q, isIp) && Addressed(q, ip, isIp)
  {
    hide ParseLine, ReplaceLine, Sound, Addressed;
    if lines != [] {
      var init, raw := lines[..|lines| - 1], lines[|lines| - 1];
      assert ParseAll(lines, isIp)[..|lines| - 1] == ParseAll(init, isIp);
      AllAreSound(init, ip, h, keep, isIp);
      PiecesAreSound(raw, ip, h, keep, isIp);
      PiecesAreAddressed(raw, ip, h, keep, isIp);
    }
  }

  /** The file reads back as the edited lines, but for entries given an address that is none. */
  lemma ReadBack(content: string, ip: string, h: string, keep: bool, isIp: string -> bool)
    requires IsToken(ip)
    ensures var qs := ReplaceAll(ParseAll(Lines(content), isIp), ip, h, keep);
            var lines := Lines(Replaced(content, ip, h, keep, isIp));
            lines == Texts(qs) && |lines| == |qs| &&
            forall i :: 0 <= i < |qs| ==>
              ParseLine(lines[i], isIp).entry == ReadAs(qs[i], isIp) && Addressed(qs[i], ip, isIp)
  {
    hide ParseLine, ReplaceAll, Sound, LineText, AreLines, ParseAll, Addressed, ReadAs, Replaced;
    var qs := ReplaceAll(ParseAll(Lines(content), isIp), ip, h, keep);
    TokenHasNoNewline(ip);
    WrittenLines(content, ip, h, keep, isIp);
    AllAreSound(Lines(content), ip, h, keep, isIp);
    forall i | 0 <= i < |qs|
      ensures ParseLine(LineText(qs[i]), isIp).entry == ReadAs(qs[i], isIp) && Addressed(qs[i], ip, isIp)
    {
      assert qs[i] in qs;
      SoundIsReadBack(qs[i], isIp);
    }
  }

  // ----- the entries in order -----

  function Entries(ps: seq<ParsedLine>): (es: seq<Option<HostEntry>>)
    ensures |es| == |ps|
  {
    seq(|ps|, i requires 0 <= i < |ps| => ps[i].entry)
  }

  /** What becomes of one line's entry: comment, other hostnames and their order stay; the hostname gets the
      address, on a line of its own without comment if the entry lists others too. */
  function EditedEntry(e: Option<HostEntry>, ip: string, h: string, keep: bool): seq<Option<HostEntry>> {
    if e.None? || e.value.disabled || h !in e.value.hostnames then [e] else
    var HostEntry(old_, names, comment, _) := e.value;
    var others := Filter(names, Other(h));
    (if keep then [Some(HostEntry(old_, names, comment, true))] else []) +
    if names == [h] then [Some(HostEntry(ip, [h], comment, false))]
    else if others == [] then [e]
    else [Some(HostEntry(old_, others, comment, false)), Some(HostEntry(ip, [h], "", false))]
  }

  function EditedEntries(es: seq<Option<HostEntry>>, ip: string, h: string, keep: bool): seq<Option<HostEntry>> {
    if es == [] then []
    else EditedEntries(es[..|es| - 1], ip, h, keep) + EditedEntry(es[|es| - 1], ip, h, keep)
  }

  lemma PiecesAreEdited(p: ParsedLine, ip: string, h: string, keep: bool)
    requires ip != ""
    ensures Entries(ReplaceLine(p, ip, h, keep)) == EditedEntry(p.entry, ip, h, keep)
  {
    if Mentions(p, h) {
      WithoutIsFilter(p.entry.value.hostnames, h);
    }
  }

  lemma {:induction false} AllAreEdited(ps: seq<ParsedLine>, ip: string, h: string, keep: bool)
    requires ip != ""
    ensures Entries(ReplaceAll(ps, ip, h, keep)) == EditedEntries(Entries(ps), ip, h, keep)
  {
    hide ReplaceLine, EditedEntry;
    if ps != [] {
      var init, last := ps[..|ps| - 1], ps[|ps| - 1];
      AllAreEdited(init, ip, h, keep);
      PiecesAreEdited(last, ip, h, keep);
      assert Entries(ps)[..|ps| - 1] == Entries(init);
      var a, b := ReplaceAll(init, ip, h, keep), ReplaceLine(last, ip, h, keep);
      assert Entries(a + b) == Entries(a) + Entries(b);
    }
  }

  /** The written file reads back as the edited entries, in order. */
  lemma ReadBackEntries(content: string, ip: string, h: string, keep: bool, isIp: string -> bool)
    requires IsToken(ip) && isIp(ip)
    ensures Entries(ParseAll(Lines(Replaced(content, ip, h, keep, isIp)), isIp))
            == EditedEntries(Entries(ParseAll(Lines(content), isIp)), ip, h, keep)
  {
    hide ReplaceAll, ParseLine, Replaced, Lines, Texts, EditedEntries;
    var ps := ParseAll(Lines(content), isIp);
    var qs := ReplaceAll(ps, ip, h, keep);
    ReadBack(content, ip, h, keep, isIp);
    AllAreEdited(ps, ip, h, keep);
    var again := ParseAll(Lines(Replaced(content, ip, h, keep, isIp)), isIp);
    forall i | 0 <= i < |qs| ensures again[i].entry == qs[i].entry {
      assert again[i].entry == ReadAs(qs[i], isIp) && Addressed(qs[i], ip, isIp);
    }
  }

  // ----- the bindings -----

  predicate Binds(p: ParsedLine, a: string, n: string) {
    p.entry.Some? && !p.entry.value.disabled && p.entry.value.ip == a && n in p.entry.value.hostnames
  }

  /** Some active entry binds hostname `n` to address `a`. */
  ghost predicate Active(ps: seq<ParsedLine>, a: string, n: string) {
    exists p :: p in ps && Binds(p, a, n)
  }

  /** An active entry that lists the hostname more than once, nothing else, under another address. */
  predicate Stuck(p: ParsedLine, ip: string, h: string) {
    Mentions(p, h) && |p.entry.value.hostnames| > 1 && (forall n <- p.entry.value.hostnames :: n == h) &&
    p.entry.value.ip != ip
  }

  /** What one line binds after the edit. */
  predicate BindsAfter(p: ParsedLine, ip: string, h: string, a: string, n: string) {
    if n == h && !Stuck(p, ip, h) then a == ip && Mentions(p, h) else Binds(p, a, n)
  }

  lemma LineBindings(p: ParsedLine, ip: string, h: string, keep: bool, a: string, n: string)
    requires ip != ""
    ensures Active(ReplaceLine(p, ip, h, keep), a, n) <==> BindsAfter(p, ip, h, a, n)
  {
    if Mentions(p, h) {
      var e := p.entry.value;
      var tail := if |e.hostnames| > 1 then SplitHostname(p, ip, h)
                  else [p.(entry := Some(e.(ip := ip)), dirty := true)];
      assert Active(ReplaceLine(p, ip, h, keep), a, n) <==> Active(tail, a, n) by {
        assert !Binds(Commented(p), a, n);
        assert forall q <- tail :: q in ReplaceLine(p, ip, h, keep);
      }
      TailBindings(p, ip, h, a, n);
    } else {
      assert p in ReplaceLine(p, ip, h, keep);
    }
  }

  lemma TailBindings(p: ParsedLine, ip: string, h: string, a: string, n: string)
    requires ip != "" && Mentions(p, h)
    ensures var e := p.entry.value;
            var tail := if |e.hostnames| > 1 then SplitHostname(p, ip, h)
                        else [p.(entry := Some(e.(ip := ip)), dirty := true)];
            Active(tail, a, n) <==> BindsAfter(p, ip, h, a, n)
  {
    var e := p.entry.value;
    if |e.hostnames| > 1 {
      var tail := SplitHostname(p, ip, h);
      var rest := Without(e.hostnames, h);
      if rest == [] {
        assert tail[0] in tail;
        assert forall m <- e.hostnames :: m == h || m in rest;
      } else {
        assert tail[0] in tail && tail[1] in tail;
        assert rest[0] in e.hostnames && rest[0] != h;
      }
    } else {
      var q := p.(entry := Some(e.(ip := ip)), dirty := true);
      assert q in [q];
      assert e.hostnames == [h];
    }
  }

  lemma {:induction false} AllBindings(ps: seq<ParsedLine>, ip: string, h: string, keep: bool, a: string, n: string)
    requires ip != ""
    ensures Active(ReplaceAll(ps, ip, h, keep), a, n) <==> exists p :: p in ps && BindsAfter(p, ip, h, a, n)
  {
    hide BindsAfter, Binds, ReplaceLine;
    if ps != [] {
      var init, last := ps[..|ps| - 1], ps[|ps| - 1];
      AllBindings(init, ip, h, keep, a, n);
      LineBindings(last, ip, h, keep, a, n);
      assert forall p :: p in ps <==> p in init || p == last;
      var before, pieces := ReplaceAll(init, ip, h, keep), ReplaceLine(last, ip, h, keep);
      assert forall q :: q in before + pieces <==> q in before || q in pieces;
      if q :| q in before && Binds(q, a, n) {
        assert q in before + pieces;
      }
      if q :| q in pieces && Binds(q, a, n) {
        assert q in before + pieces;
      }
    }
  }

  /** The re-read file has the bindings of the edited lines. */
  lemma ReadBackBindings(content: string, ip: string, h: string, keep: bool, isIp: string -> bool, a: string, n: string)
    requires IsToken(ip) && isIp(ip)
    ensures Active(ParseAll(Lines(Replaced(content, ip, h, keep, isIp)), isIp), a, n)
            <==> exists p :: p in ParseAll(Lines(content), isIp) && BindsAfter(p, ip, h, a, n)
  {
    hide ReplaceAll, ParseLine, BindsAfter, Replaced, Lines, Texts;
    var qs := ReplaceAll(ParseAll(Lines(content), isIp), ip, h, keep);
    ReadBack(content, ip, h, keep, isIp);
    AllBindings(ParseAll(Lines(content), isIp), ip, h, keep, a, n);
    var again := ParseAll(Lines(Replaced(content, ip, h, keep, isIp)), isIp);
    assert forall i :: 0 <= i < |qs| ==> again[i].entry == qs[i].entry;
    if q :| q in again && Binds(q, a, n) {
      var i :| 0 <= i < |again| && again[i] == q;
      assert Binds(qs[i], a, n);
    }
    if q :| q in qs && Binds(q, a, n) {
      var i :| 0 <= i < |qs| && qs[i] == q;
      assert Binds(again[i], a, n);
    }
  }

  /** Hostname `h` is bound to `ip` and nothing else, if it was bound at all; other hostnames keep their addresses. */
  ghost predicate PointUpdate(before: seq<ParsedLine>, after: seq<ParsedLine>, ip: string, h: string) {
    forall a, n :: Active(after, a, n) <==>
                   if n == h then a == ip && (exists b :: Active(before, b, h)) else Active(before, a, n)
  }

  /** What is bound is bound to an address. */
  lemma ActiveIsAddress(lines: seq<string>, isIp: string -> bool, a: string, n: string)
    requires Active(ParseAll(lines, isIp), a, n)
    ensures IsToken(a) && isIp(a)
  {
    hide ParseLine, IsToken;
    var ps := ParseAll(lines, isIp);
    var p :| p in ps && Binds(p, a, n);
    var i :| 0 <= i < |ps| && ps[i] == p;
    ParsedIsWellFormed(lines[i], isIp);
  }

  /** For every string given as address, `replace` is a point update of the bindings exactly if the hostname is
      not bound at all, or the string is an address and no line lists the hostname over and over. */
  lemma ReplaceIsPointUpdate(content: string, ip: string, h: string, keep: bool, isIp: string -> bool)
    ensures var before := ParseAll(Lines(content), isIp);
            PointUpdate(before, ParseAll(Lines(Replaced(content, ip, h, keep, isIp)), isIp), ip, h)
            <==> (forall p <- before :: !Mentions(p, h)) ||
                 (IsToken(ip) && isIp(ip) && forall p <- before :: !Stuck(p, ip, h))
  {
    hide ParseAll, Replaced, Lines, IsToken;
    var before := ParseAll(Lines(content), isIp);
    var after := ParseAll(Lines(Replaced(content, ip, h, keep, isIp)), isIp);
    if forall p <- before :: !Mentions(p, h) {
      NothingToWrite(content, ip, h, keep, isIp);
    } else if IsToken(ip) && isIp(ip) {
      forall a, n ensures Active(after, a, n) <==> exists p :: p in before && BindsAfter(p, ip, h, a, n) {
        ReadBackBindings(content, ip, h, keep, isIp, a, n);
      }
      UpdateUnlessStuck(before, after, ip, h);
    } else {
      var p :| p in before && Mentions(p, h);
      assert Binds(p, p.entry.value.ip, h);
      assert Active(before, p.entry.value.ip, h);
      assert !Active(after, ip, h) by {
        if Active(after, ip, h) {
          ActiveIsAddress(Lines(Replaced(content, ip, h, keep, isIp)), isIp, ip, h);
        }
      }
    }
  }

  /** A file that `replace` leaves as it is: one line that lists the hostname twice. */
  lemma TwiceListedIsStuck(a: string, ip: string, h: string, keep: bool, isIp: string -> bool)
    requires IsToken(a) && isIp(a) && IsToken(h) && a != ip
    ensures var content := Render(HostEntry(a, [h, h], "", false)) + "\n";
            var before := ParseAll(Lines(content), isIp);
            |before| == 1 && Stuck(before[0], ip, h) && Active(before, a, h) &&
            !PointUpdate(before, ParseAll(Lines(Replaced(content, ip, h, keep, isIp)), isIp), ip, h)
  {
    hide Render, ParseLine, PointUpdate, Replaced, IsToken, Lines, ParseAll;
    var e := HostEntry(a, [h, h], "", false);
    var content := Render(e) + "\n";
    TokenHasNoNewline(a);
    RenderThenParse(e, isIp);
    RenderHasNoNewline(e);
    OneLineFile(Render(e), isIp);
    var before := ParseAll(Lines(content), isIp);
    assert before[0] in before && Stuck(before[0], ip, h) && Binds(before[0], a, h);
    ReplaceIsPointUpdate(content, ip, h, keep, isIp);
  }

  lemma OneLineFile(text: string, isIp: string -> bool)
    requires '\n' !in text
    ensures ParseAll(Lines(text + "\n"), isIp) == [ParseLine(text + "\n", isIp)]
  {
    hide ParseLine;
    var content := text + "\n";
    assert content[..|text|] == text;
    assert Concat([content]) == content + Concat([]) == content;
    LinesOfConcat([content]);
  }

  lemma UpdateUnlessStuck(before: seq<ParsedLine>, after: seq<ParsedLine>, ip: string, h: string)
    requires forall a, n :: Active(after, a, n) <==> exists p :: p in before && BindsAfter(p, ip, h, a, n)
    ensures PointUpdate(before, after, ip, h) <==> forall p <- before :: !Stuck(p, ip, h)
  {
    if p :| p in before && Stuck(p, ip, h) {
      assert BindsAfter(p, ip, h, p.entry.value.ip, h);
      assert Active(after, p.entry.value.ip, h);
    } else {
      forall a, n
        ensures Active(after, a, n) <==>
                if n == h then a == ip && (exists b :: Active(before, b, h)) else Active(before, a, n)
      {
        if n == h {
          if b :| Active(before, b, h) {
            var p :| p in before && Binds(p, b, h);
            assert Mentions(p, h);
          }
          if p :| p in before && Mentions(p, h) {
            assert Binds(p, p.entry.value.ip, h);
            assert Active(before, p.entry.value.ip, h);
          }
        }
      }
    }
  }

  // ----- entries commented out -----

  ghost predicate HasDisabled(ps: seq<ParsedLine>, e: HostEntry) {
    e.disabled && exists p :: p in ps && p.entry == Some(e)
  }

  /** The entry of the line is commented out by the edit. */
  predicate Retired(p: ParsedLine, h: string, keep: bool, e: HostEntry) {
    keep && Mentions(p, h) && e == p.entry.value.(disabled := true)
  }

  lemma {:induction false} DisabledLines(ps: seq<ParsedLine>, ip: string, h: string, keep: bool, e: HostEntry)
    requires e.disabled
    ensures HasDisabled(ReplaceAll(ps, ip, h, keep), e)
            <==> HasDisabled(ps, e) || exists p :: p in ps && Retired(p, h, keep, e)
  {
    if ps != [] {
      var init, last := ps[..|ps| - 1], ps[|ps| - 1];
      DisabledLines(init, ip, h, keep, e);
      var before, pieces := ReplaceAll(init, ip, h, keep), ReplaceLine(last, ip, h, keep);
      assert HasDisabled(pieces, e) <==> last.entry == Some(e) || Retired(last, h, keep, e) by {
        DisabledPieces(last, ip, h, keep, e);
      }
      InEither(before, pieces, e);
      assert init + [last] == ps;
      InEither(init, [last], e);
      assert forall p :: p in ps <==> p in init || p == last;
    }
  }

  lemma InEither(xs: seq<ParsedLine>, ys: seq<ParsedLine>, e: HostEntry)
    ensures HasDisabled(xs + ys, e) <==> HasDisabled(xs, e) || HasDisabled(ys, e)
  {
    assert forall p :: p in xs + ys <==> p in xs || p in ys;
  }

  lemma DisabledPieces(p: ParsedLine, ip: string, h: string, keep: bool, e: HostEntry)
    requires e.disabled
    ensures HasDisabled(ReplaceLine(p, ip, h, keep), e) <==> p.entry == Some(e) || Retired(p, h, keep, e)
  {
    var pieces := ReplaceLine(p, ip, h, keep);
    assert pieces[0] in pieces;
  }

  /** With `keep` every replaced entry stays in the file as a comment; nothing else is commented out. */
  lemma ReplaceKeepsOriginals(content: string, ip: string, h: string, keep: bool, isIp: string -> bool, e: HostEntry)
    requires IsToken(ip) && e.disabled
    ensures HasDisabled(ParseAll(Lines(Replaced(content, ip, h, keep, isIp)), isIp), e)
            <==> HasDisabled(ParseAll(Lines(content), isIp), e) ||
                 exists p :: p in ParseAll(Lines(content), isIp) && Retired(p, h, keep, e)
  {
    hide ReplaceAll, ParseLine, Retired, Replaced, Lines, Texts, IsToken;
    var qs := ReplaceAll(ParseAll(Lines(content), isIp), ip, h, keep);
    ReadBack(content, ip, h, keep, isIp);
    DisabledLines(ParseAll(Lines(content), isIp), ip, h, keep, e);
    var again := ParseAll(Lines(Replaced(content, ip, h, keep, isIp)), isIp);
    assert forall i :: 0 <= i < |qs| ==> again[i].entry == ReadAs(qs[i], isIp) && Addressed(qs[i], ip, isIp);
    if q :| q in again && q.entry == Some(e) {
      var i :| 0 <= i < |again| && again[i] == q;
      assert qs[i] in qs && qs[i].entry == Some(e);
    }
    if q :| q in qs && q.entry == Some(e) {
      var i :| 0 <= i < |qs| && qs[i] == q;
      assert again[i] in again && again[i].entry == Some(e);
    }
  }

  // ----- lines left alone -----

  function Flatten(pieces: seq<seq<string>>): seq<string> {
    if pieces == [] then [] else Flatten(pieces[..|pieces| - 1]) + pieces[|pieces| - 1]
  }

  /** The lines that take the place of each line of the file. */
  function Pieces(lines: seq<string>, ip: string, h: string, keep: bool, isIp: string -> bool): seq<seq<string>> {
    seq(|lines|, i requires 0 <= i < |lines| => Texts(ReplaceLine(ParseLine(lines[i], isIp), ip, h, keep)))
  }

  lemma {:induction false} PiecesInOrder(lines: seq<string>, ip: string, h: string, keep: bool, isIp: string -> bool)
    ensures Texts(ReplaceAll(ParseAll(lines, isIp), ip, h, keep)) == Flatten(Pieces(lines, ip, h, keep, isIp))
  {
    hide ReplaceLine, ParseLine, LineText;
    if lines != [] {
      var init, n := lines[..|lines| - 1], |lines| - 1;
      PiecesInOrder(init, ip, h, keep, isIp);
      assert ParseAll(lines, isIp)[..n] == ParseAll(init, isIp);
      assert Pieces(lines, ip, h, keep, isIp)[..n] == Pieces(init, ip, h, keep, isIp);
      var before := ReplaceAll(ParseAll(init, isIp), ip, h, keep);
      var last := ReplaceLine(ParseLine(lines[n], isIp), ip, h, keep);
      assert Texts(before + last) == Texts(before) + Texts(last);
    }
  }

  /** Lines that are not active entries of the hostname are kept to the byte. */
  lemma OtherLinesStay(lines: seq<string>, ip: string, h: string, keep: bool, isIp: string -> bool, i: nat)
    requires i < |lines| && !Mentions(ParseLine(lines[i], isIp), h)
    ensures Pieces(lines, ip, h, keep, isIp)[i] == [lines[i]]
  {
    hide ParseLine;
    RawIsKept(lines[i], isIp);
  }

  /** For every string given as address, the lines of the new file are those that take the place of the old ones,
      in order, exactly if the string has no newline or is not written at all. */
  lemma LinesTakeTheirPlace(content: string, ip: string, h: string, keep: bool, isIp: string -> bool)
    ensures Lines(Replaced(content, ip, h, keep, isIp)) == Flatten(Pieces(Lines(content), ip, h, keep, isIp))
            <==> '\n' !in ip || forall raw <- Lines(content) :: !Takes(ParseLine(raw, isIp), h)
  {
    hide ParseLine, Lines, Replaced, ReplaceAll, Flatten, Takes, Pieces, Texts, ParseAll;
    var lines := Lines(content);
    var qs := ReplaceAll(ParseAll(lines, isIp), ip, h, keep);
    PiecesInOrder(lines, ip, h, keep, isIp);
    if '\n' !in ip || forall raw <- lines :: !Takes(ParseLine(raw, isIp), h) {
      WrittenLines(content, ip, h, keep, isIp);
    } else {
      var i :| 0 <= i < |lines| && Takes(ParseLine(lines[i], isIp), h);
      NewlineBreaksLine(lines, ip, h, keep, isIp, i);
      LinesAreLines(Replaced(content, ip, h, keep, isIp));
      LinesAreLinesOnly(Lines(Replaced(content, ip, h, keep, isIp)), Texts(qs));
    }
  }

  lemma LinesAreLinesOnly(lines: seq<string>, texts: seq<string>)
    requires AreLines(lines) && exists t <- texts :: !IsLine(t)
    ensures lines != texts
  {
  }

  lemma NewlineBreaksLine(lines: seq<string>, ip: string, h: string, keep: bool, isIp: string -> bool, i: nat)
    requires i < |lines| && Takes(ParseLine(lines[i], isIp), h) && '\n' in ip
    ensures exists t <- Texts(ReplaceAll(ParseAll(lines, isIp), ip, h, keep)) :: !IsLine(t)
  {
    hide ParseLine, IsLine, LineText, ReplaceLine, ReplaceAll, Takes;
    var ps := ParseAll(lines, isIp);
    var q := BrokenPiece(ps[i], ip, h, keep);
    PieceInAll(ps, ip, h, keep, i, q);
    var qs := ReplaceAll(ps, ip, h, keep);
    var j :| 0 <= j < |qs| && qs[j] == q;
    assert Texts(qs)[j] == LineText(q);
  }

  lemma BrokenPiece(p: ParsedLine, ip: string, h: string, keep: bool) returns (q: ParsedLine)
    requires Takes(p, h) && '\n' in ip
    ensures q in ReplaceLine(p, ip, h, keep) && !IsLine(LineText(q))
  {
    var pieces := ReplaceLine(p, ip, h, keep);
    q := pieces[|pieces| - 1];
    var e := q.entry.value;
    assert e.ip == ip && !e.disabled && q.dirty;
    var i :| 0 <= i < |ip| && ip[i] == '\n';
    var t := LineText(q);
    assert t[i] == '\n' && i < |t| - 1;
    assert t[..|t| - 1][i] == '\n';
  }

  lemma {:induction false} PieceInAll(ps: seq<ParsedLine>, ip: string, h: string, keep: bool, i: nat, q: ParsedLine)
    requires i < |ps| && q in ReplaceLine(ps[i], ip, h, keep)
    ensures q in ReplaceAll(ps, ip, h, keep)
    decreases |ps|
  {
    hide ReplaceLine;
    if i < |ps| - 1 {
      PieceInAll(ps[..|ps| - 1], ip, h, keep, i, q);
    }
  }

  lemma {:induction false} NothingToReplace(ps: seq<ParsedLine>, ip: string, h: string, keep: bool)
    requires forall p <- ps :: !Mentions(p, h)
    ensures ReplaceAll(ps, ip, h, keep) == ps
  {
    hide Mentions;
    if ps != [] {
      assert ps[|ps| - 1] in ps;
      NothingToReplace(ps[..|ps| - 1], ip, h, keep);
      assert ps[..|ps| - 1] + [ps[|ps| - 1]] == ps;
    }
  }

  lemma ParsedTexts(lines: seq<string>, isIp: string -> bool)
    ensures Texts(ParseAll(lines, isIp)) == lines
  {
    hide ParseLine;
    forall i | 0 <= i < |lines| ensures LineText(ParseLine(lines[i], isIp)) == lines[i] {
      RawIsKept(lines[i], isIp);
    }
  }

  /** A file that does not bind the hostname is what the edit would write. */
  lemma NothingToWrite(content: string, ip: string, h: string, keep: bool, isIp: string -> bool)
    requires forall p <- ParseAll(Lines(content), isIp) :: !Mentions(p, h)
    ensures Replaced(content, ip, h, keep, isIp) == content
  {
    NothingToReplace(ParseAll(Lines(content), isIp), ip, h, keep);
    ParsedTexts(Lines(content), isIp);
    LinesAreLines(content);
  }

  lemma ReplaceStep(ps: seq<ParsedLine>, i: nat, ip: string, h: string, keep: bool)
    requires i < |ps|
    ensures ReplaceAll(ps[..i + 1], ip, h, keep) == ReplaceAll(ps[..i], ip, h, keep) + ReplaceLine(ps[i], ip, h, keep)
  {
    assert ps[..i + 1][..i] == ps[..i];
  }

  // ----- the manager -----

  class HostsFileManager {
    var content: string
    const isIp: string -> bool

    constructor (content: string, isIp: string -> bool)
      ensures this.content == content && this.isIp == isIp
    {
      this.content, this.isIp := content, isIp;
    }

    method Parse() returns (parsed: seq<ParsedLine>)
      ensures parsed == ParseAll(Lines(content), isIp)
    {
      var lines := Lines(content);
      parsed := [];
      for i := 0 to |lines|
        invariant parsed == ParseAll(lines, isIp)[..i]
      {
        parsed := parsed + [ParseLine(lines[i], isIp)];
      }
    }

    method Serialize(parsed: seq<ParsedLine>) returns (text: string)
      ensures text == Concat(Texts(parsed))
    {
      text := "";
      for i := 0 to |parsed|
        invariant text == Concat(Texts(parsed)[..i])
      {
        var texts := Texts(parsed);
        assert texts[..i + 1] == texts[..i] + [texts[i]];
        ConcatAppend(texts[..i], [texts[i]]);
        assert Concat([texts[i]]) == texts[i];
        text := text + LineText(parsed[i]);
      }
      assert Texts(parsed)[..|parsed|] == Texts(parsed);
    }

    /** Writes the file only when some line changed. */
    method Replace(ip: string, h: string, keep: bool)
      modifies this
      ensures content == Replaced(old(content), ip, h, keep, isIp)
    {
      hide ReplaceAll, ParseAll, Lines, Texts, Concat, SplitHostname;
      var parsed := Parse();
      var edited, anyChanged := [], false;
      assert ReplaceAll(parsed[..0], ip, h, keep) == [] by {
        NothingToReplace([], ip, h, keep);
      }
      for i := 0 to |parsed|
        invariant content == old(content) && edited == ReplaceAll(parsed[..i], ip, h, keep)
        invariant anyChanged || forall j :: 0 <= j < i ==> !Mentions(parsed[j], h)
      {
        var p := parsed[i];
        ReplaceStep(parsed, i, ip, h, keep);
        if p.entry.Some? && !p.entry.value.disabled && h in p.entry.value.hostnames {
          if keep {
            edited := edited + [Commented(p)];
          }
          if |p.entry.value.hostnames| > 1 {
            edited := edited + SplitHostname(p, ip, h);
          } else {
            edited := edited + [p.(entry := Some(p.entry.value.(ip := ip)), dirty := true)];
          }
          anyChanged := true;
        } else {
          edited := edited + [p];
        }
      }
      assert parsed[..|parsed|] == parsed;
      if anyChanged {
        content := Serialize(edited);
      } else {
        forall p | p in parsed ensures !Mentions(p, h) {
          var j :| 0 <= j < |parsed| && parsed[j] == p;
        }
        NothingToWrite(content, ip, h, keep, isIp);
      }
    }
  }
}
