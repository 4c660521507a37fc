/**
  Turning names into C identifiers that are legal, no keyword, and different from each other.  How the
  language classes and lowers characters beyond ASCII is a parameter.
 */
module CIdent {
  import opened Numerals
  import opened Options

  /** `isalnum`, `isdigit` and `lower` where characters beyond ASCII come in. */
  datatype Unicode = Unicode(alnum: char -> bool, digit: char -> bool, lower: string -> string)

  predicate IsAscii(c: char) {
    c as int < 128
  }

  predicate AllAscii(s: string) {
    forall c <- s :: IsAscii(c)
  }

  predicate IsDigit(c: char) {
    '0' <= c <= '9'
  }

  predicate IsLetter(c: char) {
    'a' <= c <= 'z' || 'A' <= c <= 'Z'
  }

  /** What a C identifier is made of. */
  predicate IsWordChar(c: char) {
    IsDigit(c) || IsLetter(c) || c == '_'
  }

  /** A character beyond ASCII that the language takes for a letter or digit. */
  predicate IsForeign(c: char, u: Unicode) {
    !IsAscii(c) && u.alnum(c)
  }

  predicate HasForeign(s: string, u: Unicode) {
    exists c <- s :: IsForeign(c, u)
  }

  function Lower(c: char): char {
    if 'A' <= c <= 'Z' then c + ' ' else c
  }

  function LowerAll(s: string): string {
    seq(|s|, i requires 0 <= i < |s| => Lower(s[i]))
  }

  function LowerOf(s: string, u: Unicode): string {
    if AllAscii(s) then LowerAll(s) else u.lower(s)
  }

  const KEYWORDS_A_TO_E := [
    "auto", "break", "case", "char", "const", "continue", "default", "do", "double", "else", "enum", "extern"]
  const KEYWORDS_F_TO_R := [
    "float", "for", "goto", "if", "inline", "int", "long", "register", "restrict", "return"]
  const KEYWORDS_S_TO_W := [
    "short", "signed", "sizeof", "static", "struct", "switch", "typedef", "union", "unsigned", "void", "volatile",
    "while"]
  const KEYWORDS_RESERVED := [
    "_Bool", "_Complex", "_Imaginary", "_Alignas", "_Alignof", "_Atomic", "_Generic", "_Noreturn",
    "_Static_assert", "_Thread_local"]

  predicate IsKeyword(s: string) {
    s in KEYWORDS_A_TO_E || s in KEYWORDS_F_TO_R || s in KEYWORDS_S_TO_W || s in KEYWORDS_RESERVED
  }

  /** What stands for a character that is no letter, digit or underscore. */
  function Special(c: char): string {
    match c
    case '(' => "_open_"
    case ')' => "_close_"
    case '[' => "_lbrack_"
    case ']' => "_rbrack_"
    case '{' => "_lbrace_"
    case '}' => "_rbrace_"
    case '<' => "_lt_"
    case '>' => "_gt_"
    case '!' => "_not_"
    case '@' => "_at_"
    case '#' => "_hash_"
    case '$' => "_dollar_"
    case '%' => "_percent_"
    case '^' => "_caret_"
    case '&' => "_and_"
    case '*' => "_star_"
    case '+' => "_plus_"
    case '=' => "_eq_"
    case '|' => "_pipe_"
    case '\\' => "_bslash_"
    case '/' => "_slash_"
    case '?' => "_question_"
    case '.' => "_dot_"
    case ',' => "_comma_"
    case ':' => "_colon_"
    case ';' => "_semicolon_"
    case '~' => "_tilde_"
    case '`' => "_backtick_"
    case _ => "_"
  }

  function Spell(c: char, u: Unicode): string {
    if IsWordChar(c) || IsForeign(c, u) then [c] else Special(c)
  }

  function SpellAll(s: string, u: Unicode): string {
    if s == [] then "" else SpellAll(s[..|s| - 1], u) + Spell(s[|s| - 1], u)
  }

  // ----- runs of underscores -----

  predicate HasDouble(s: string) {
    exists i :: 0 <= i < |s| - 1 && s[i] == '_' && s[i + 1] == '_'
  }

  /** `s.replace("__", "_")`: one pass from the left. */
  function Halve(s: string): string {
    if |s| >= 2 && s[0] == '_' && s[1] == '_' then "_" + Halve(s[2..])
    else if s == [] then ""
    else [s[0]] + Halve(s[1..])
  }

  /** Every run of underscores as one. */
  function Collapse(s: string): string {
    if s == [] then ""
    else if |s| >= 2 && s[0] == '_' && s[1] == '_' then Collapse(s[1..])
    else [s[0]] + Collapse(s[1..])
  }

  lemma {:induction false} HalveShrinks(s: string)
    ensures |Halve(s)| <= |s| && (HasDouble(s) ==> |Halve(s)| < |s|)
    decreases |s|
  {
    if |s| >= 2 && s[0] == '_' && s[1] == '_' {
      HalveShrinks(s[2..]);
    } else if s != [] {
      HalveShrinks(s[1..]);
      if HasDouble(s) {
        var i :| 0 <= i < |s| - 1 && s[i] == '_' && s[i + 1] == '_';
        assert s[1..][i - 1] == '_' && s[1..][i] == '_';
      }
    }
  }

  lemma {:induction false} CollapseUnderscore(s: string, t: string)
    requires Collapse(s) == Collapse(t)
    ensures Collapse("_" + s) == Collapse("_" + t)
  {
    CollapseStart(s);
    CollapseStart(t);
    assert ("_" + s)[1..] == s && ("_" + t)[1..] == t;
  }

  lemma {:induction false} CollapseStart(s: string)
    ensures s != [] <==> Collapse(s) != []
    ensures s != [] ==> Collapse(s)[0] == s[0]
  {
    if |s| >= 2 && s[0] == '_' && s[1] == '_' {
      CollapseStart(s[1..]);
    }
  }

  /** A pass changes no run to anything but a shorter run. */
  lemma {:induction false} HalveKeepsCollapse(s: string)
    ensures Collapse(Halve(s)) == Collapse(s)
    decreases |s|
  {
    if |s| >= 2 && s[0] == '_' && s[1] == '_' {
      HalveKeepsCollapse(s[2..]);
      CollapseUnderscore(Halve(s[2..]), s[2..]);
      assert s[1..] == "_" + s[2..];
    } else if s != [] {
      HalveKeepsCollapse(s[1..]);
      if s[0] == '_' {
        CollapseUnderscore(Halve(s[1..]), s[1..]);
        assert s == "_" + s[1..] && Halve(s) == "_" + Halve(s[1..]);
      } else {
        assert ([s[0]] + Halve(s[1..]))[1..] == Halve(s[1..]);
      }
    }
  }

  lemma {:induction false} SingleIsCollapsed(s: string)
    requires !HasDouble(s)
    ensures Collapse(s) == s
  {
    if s != [] {
      assert !HasDouble(s[1..]) by {
        forall i | 0 <= i < |s[1..]| - 1 ensures !(s[1..][i] == '_' && s[1..][i + 1] == '_') {
          assert !(s[i + 1] == '_' && s[i + 1 + 1] == '_');
        }
      }
      SingleIsCollapsed(s[1..]);
      if |s| >= 2 {
        assert !(s[0] == '_' && s[0 + 1] == '_');
      }
    }
  }

  method CollapseRuns(s: string) returns (base: string)
    ensures base == Collapse(s) && !HasDouble(base)
  {
    base := s;
    while HasDouble(base)
      invariant Collapse(base) == Collapse(s)
      decreases |base|
    {
      HalveShrinks(base);
      HalveKeepsCollapse(base);
      base := Halve(base);
    }
    SingleIsCollapsed(base);
  }

  // ----- one name -----

  function TrimLeft(s: string): (r: string)
    ensures r != [] ==> r[0] != '_'
    ensures forall c <- r :: c in s
  {
    if s != [] && s[0] == '_' then TrimLeft(s[1..]) else s
  }

  function TrimRight(s: string): (r: string)
    ensures r != [] ==> s != [] && r[0] == s[0] && r[|r| - 1] != '_'
    ensures forall c <- r :: c in s
  {
    if s != [] && s[|s| - 1] == '_' then TrimRight(s[..|s| - 1]) else s
  }

  function OrEmpty(s: string): string {
    if s == [] then "empty" else s
  }

  function NoDigitFirst(s: string, u: Unicode): string {
    if s != [] && (IsDigit(s[0]) || (!IsAscii(s[0]) && u.digit(s[0]))) then "_" + s else s
  }

  function NoKeyword(s: string, u: Unicode): string {
    if IsKeyword(LowerOf(s, u)) then s + "_" else s
  }

  /** The identifier for a name before others are taken into account. */
  function BaseName(s: string, u: Unicode): string {
    NoKeyword(NoDigitFirst(OrEmpty(TrimRight(TrimLeft(Collapse(SpellAll(s, u))))), u), u)
  }

  predicate IsIdentifier(s: string) {
    s != [] && !IsDigit(s[0]) && (forall c <- s :: IsWordChar(c)) && !IsKeyword(s)
  }

  /** Spelling leaves word characters and the foreign ones of the name. */
  lemma {:induction false} SpelledChars(s: string, u: Unicode)
    ensures forall c <- SpellAll(s, u) :: IsWordChar(c) || (IsForeign(c, u) && c in s)
    ensures forall c <- s :: IsForeign(c, u) ==> c in SpellAll(s, u)
  {
    hide Spell;
    if s != [] {
      var init, last := s[..|s| - 1], s[|s| - 1];
      assert s == init + [last];
      SpelledChars(init, u);
      SpelledChar(last, u);
    }
  }

  lemma SpelledChar(c: char, u: Unicode)
    ensures forall d <- Spell(c, u) :: IsWordChar(d) || (IsForeign(d, u) && d == c)
    ensures IsForeign(c, u) ==> c in Spell(c, u)
  {
    hide Special;
    SpecialChars(c);
  }

  /** The special characters and their names. */
  const BRACKETS := "()[]{}<>"
  const BRACKET_NAMES := ["open", "close", "lbrack", "rbrack", "lbrace", "rbrace", "lt", "gt"]
  const SIGNS := "!@#$%^&*+="
  const SIGN_NAMES := ["not", "at", "hash", "dollar", "percent", "caret", "and", "star", "plus", "eq"]
  const SLASHES := "|\\/?"
  const SLASH_NAMES := ["pipe", "bslash", "slash", "question"]
  const STOPS := ".,:;~`"
  const STOP_NAMES := ["dot", "comma", "colon", "semicolon", "tilde", "backtick"]

  /** Each special character is spelled by its name between underscores. */
  lemma SpecialsByName(i: nat)
    ensures i < 8 ==> Special(BRACKETS[i]) == "_" + BRACKET_NAMES[i] + "_"
    ensures i < 10 ==> Special(SIGNS[i]) == "_" + SIGN_NAMES[i] + "_"
    ensures i < 4 ==> Special(SLASHES[i]) == "_" + SLASH_NAMES[i] + "_"
    ensures i < 6 ==> Special(STOPS[i]) == "_" + STOP_NAMES[i] + "_"
  {
    hide Special;
    if i < 10 {
      SignsByName(i);
    }
    if i < 8 {
      BracketsByName(i);
    }
    if i < 6 {
      StopsByName(i);
    }
    if i < 4 {
      SlashesByName(i);
    }
  }

  lemma BracketsByName(i: nat)
    requires i < 8
    ensures Special(BRACKETS[i]) == "_" + BRACKET_NAMES[i] + "_"
  {
  }

  lemma SignsByName(i: nat)
    requires i < 10
    ensures Special(SIGNS[i]) == "_" + SIGN_NAMES[i] + "_"
  {
  }

  lemma SlashesByName(i: nat)
    requires i < 4
    ensures Special(SLASHES[i]) == "_" + SLASH_NAMES[i] + "_"
  {
  }

  lemma StopsByName(i: nat)
    requires i < 6
    ensures Special(STOPS[i]) == "_" + STOP_NAMES[i] + "_"
  {
  }

  /** Letters, digits and underscores stand for themselves. */
  lemma {:induction false} WordsSpelled(s: string, u: Unicode)
    requires forall c <- s :: IsWordChar(c)
    ensures SpellAll(s, u) == s
  {
    if s != [] {
      WordsSpelled(s[..|s| - 1], u);
      assert IsWordChar(s[|s| - 1]);
    }
  }

  /** A name that is a tidy identifier already stays as it is. */
  lemma TidyStays(s: string, u: Unicode)
    requires s != [] && (forall c <- s :: IsWordChar(c)) && !HasDouble(s)
    requires !IsDigit(s[0]) && s[0] != '_' && s[|s| - 1] != '_' && !IsKeyword(LowerAll(s))
    ensures BaseName(s, u) == s
  {
    hide IsKeyword, LowerAll;
    WordsSpelled(s, u);
    SingleIsCollapsed(s);
    assert s[0] in s && IsAscii(s[0]) && AllAscii(s);
  }

  lemma SpecialChars(c: char)
    ensures forall d <- Special(c) :: IsWordChar(d)
  {
  }

  /** Nothing but underscores goes when runs are collapsed and the ends trimmed. */
  lemma {:induction false} CollapseKeepsChars(s: string)
    ensures forall c <- Collapse(s) :: c in s
    ensures forall c <- s :: c != '_' ==> c in Collapse(s)
  {
    if s != [] {
      assert s == [s[0]] + s[1..];
      CollapseKeepsChars(s[1..]);
    }
  }

  lemma {:induction false} TrimKeepsChars(s: string)
    ensures forall c <- s :: c != '_' ==> c in TrimLeft(s) && c in TrimRight(s)
    decreases |s|
  {
    if s != [] {
      assert s == [s[0]] + s[1..] == s[..|s| - 1] + [s[|s| - 1]];
      TrimKeepsChars(s[1..]);
      TrimKeepsChars(s[..|s| - 1]);
    }
  }

  predicate IsLower(c: char) {
    'a' <= c <= 'z'
  }

  predicate AllLower(s: string) {
    forall i :: 0 <= i < |s| ==> IsLower(s[i])
  }

  lemma LowerIsLower(s: string)
    requires AllLower(s)
    ensures LowerAll(s) == s
  {
  }

  predicate Reserved(s: string) {
    |s| > 1 && s[0] == '_' && !IsDigit(s[1]) && IsLower(s[|s| - 1])
  }

  lemma KeywordsAToE()
    ensures forall k <- KEYWORDS_A_TO_E :: k != [] && AllLower(k)
  {
  }

  lemma KeywordsFToR()
    ensures forall k <- KEYWORDS_F_TO_R :: k != [] && AllLower(k)
  {
  }

  lemma KeywordsSToW()
    ensures forall k <- KEYWORDS_S_TO_W :: k != [] && AllLower(k)
  {
  }

  lemma ReservedKeywords()
    ensures forall k <- KEYWORDS_RESERVED :: Reserved(k)
  {
  }

  /** Keywords end in a small letter; those in capitals too start with an underscore and no digit. */
  lemma KeywordShape(k: string)
    requires IsKeyword(k)
    ensures k != [] && IsLower(k[|k| - 1])
    ensures LowerAll(k) == k || (|k| > 1 && k[0] == '_' && !IsDigit(k[1]))
  {
    hide LowerAll;
    KeywordsAToE();
    KeywordsFToR();
    KeywordsSToW();
    ReservedKeywords();
    if AllLower(k) {
      LowerIsLower(k);
    }
  }

  /** The name with its ends trimmed. */
  function Trimmed(s: string, u: Unicode): string {
    TrimRight(TrimLeft(Collapse(SpellAll(s, u))))
  }

  lemma TrimmedChars(s: string, u: Unicode)
    ensures var t := Trimmed(s, u);
            (t != [] ==> t[0] != '_') && (forall c <- t :: IsWordChar(c) || (IsForeign(c, u) && c in s)) &&
            forall c <- s :: IsForeign(c, u) ==> c in t
  {
    hide SpellAll, Collapse, TrimLeft, TrimRight;
    var a := SpellAll(s, u);
    SpelledChars(s, u);
    CollapseKeepsChars(a);
    TrimKeepsChars(Collapse(a));
    TrimKeepsChars(TrimLeft(Collapse(a)));
  }

  lemma BaseKeeps(t: string, u: Unicode, c: char)
    requires c in t
    ensures c in NoKeyword(NoDigitFirst(OrEmpty(t), u), u)
  {
    hide IsKeyword, LowerOf;
  }

  /** A letter or digit beyond ASCII stays in the name. */
  lemma ForeignBase(s: string, u: Unicode)
    requires HasForeign(s, u)
    ensures !(forall c <- BaseName(s, u) :: IsWordChar(c))
  {
    hide Trimmed, NoKeyword, NoDigitFirst, OrEmpty;
    TrimmedChars(s, u);
    TrimmedIs(s, u);
    var c :| c in s && IsForeign(c, u);
    BaseKeeps(Trimmed(s, u), u, c);
    assert c in BaseName(s, u) && !IsWordChar(c);
  }

  /** A name gives a legal identifier that is no keyword, exactly if it has no letter or digit beyond ASCII. */
  lemma BaseIsIdentifier(s: string, u: Unicode)
    ensures IsIdentifier(BaseName(s, u)) <==> !HasForeign(s, u)
  {
    hide IsKeyword, LowerAll, Trimmed;
    if HasForeign(s, u) {
      ForeignBase(s, u);
    } else {
      TrimmedChars(s, u);
      TrimmedIs(s, u);
      PlainBase(Trimmed(s, u), u);
    }
  }

  lemma TrimmedIs(s: string, u: Unicode)
    ensures Trimmed(s, u) == TrimRight(TrimLeft(Collapse(SpellAll(s, u))))
  {
  }

  lemma PlainBase(t: string, u: Unicode)
    requires (t != [] ==> t[0] != '_') && forall c <- t :: IsWordChar(c)
    ensures IsIdentifier(NoKeyword(NoDigitFirst(OrEmpty(t), u), u))
  {
    hide IsKeyword, LowerAll;
    var w, v := OrEmpty(t), NoDigitFirst(OrEmpty(t), u);
    assert w[0] in w && IsWordChar(w[0]) && w[0] != '_';
    assert v != [] && !IsDigit(v[0]) && (v[0] == '_' ==> |v| > 1 && IsDigit(v[1]));
    assert forall c <- v :: IsWordChar(c);
    assert AllAscii(v);
    var r := NoKeyword(v, u);
    if IsKeyword(r) {
      KeywordShape(r);
    }
  }

  // ----- keeping identifiers apart -----

  function Numbered(identifier: string, n: nat): string {
    identifier + "_" + Decimal(n)
  }

  lemma NumberedInjective(identifier: string, m: nat, n: nat)
    requires Numbered(identifier, m) == Numbered(identifier, n)
    ensures m == n
  {
    var k := |identifier| + 1;
    assert Numbered(identifier, m)[k..] == Decimal(m) && Numbered(identifier, n)[k..] == Decimal(n);
    DecimalInjective(m, n);
  }

  /** The identifier itself if it is free, else the first free number from 2 on. */
  ghost predicate Dedups(used: set<string>, identifier: string, r: string) {
    if identifier !in used then r == identifier else
    exists n: nat :: n >= 2 && r == Numbered(identifier, n) && IsFirstFree(used, identifier, n)
  }

  predicate IsFirstFree(used: set<string>, identifier: string, n: nat) {
    Numbered(identifier, n) !in used && forall j: nat :: 2 <= j < n ==> Numbered(identifier, j) in used
  }

  lemma DedupIsDetermined(used: set<string>, identifier: string, r: string, q: string)
    requires Dedups(used, identifier, r) && Dedups(used, identifier, q)
    ensures r == q
  {
  }

  /** An identifier stays legal and no keyword when it is numbered. */
  lemma NumberedIsIdentifier(identifier: string, n: nat)
    requires IsIdentifier(identifier)
    ensures IsIdentifier(Numbered(identifier, n))
  {
    hide IsKeyword;
    var r, d := Numbered(identifier, n), Decimal(n);
    assert r[0] == identifier[0];
    assert r[|r| - 1] == d[|d| - 1] && d[|d| - 1] in d;
    if IsKeyword(r) {
      KeywordShape(r);
    }
  }

  class IdentifierRegistry {
    var used: map<string, int>

    constructor ()
      ensures used == map[]
    {
      used := map[];
    }

    /** The search ends because every number tried before is taken and the numbered names differ. */
    method Dedup(identifier: string) returns (r: string)
      modifies this
      ensures Dedups(old(used).Keys, identifier, r) && used == old(used)[r := 1]
    {
      hide Numbered;
      if identifier !in used {
        used := used[identifier := 1];
        return identifier;
      }
      var counter := 2;
      ghost var tried: set<string> := {};
      while true
        invariant counter >= 2 && used == old(used) && tried <= used.Keys
        invariant forall t :: t in tried <==> exists j: nat :: 2 <= j < counter && t == Numbered(identifier, j)
        decreases |used.Keys - tried|
      {
        var candidate := Numbered(identifier, counter);
        if candidate !in used {
          used := used[candidate := 1];
          assert forall j: nat :: 2 <= j < counter ==> Numbered(identifier, j) in tried;
          assert IsFirstFree(old(used).Keys, identifier, counter);
          return candidate;
        }
        if candidate in tried {
          var j: nat :| 2 <= j < counter && candidate == Numbered(identifier, j);
          NumberedInjective(identifier, j, counter);
        }
        assert used.Keys - (tried + {candidate}) < used.Keys - tried by {
          assert candidate in used.Keys - tried;
        }
        SmallerSet(used.Keys - (tried + {candidate}), used.Keys - tried);
        tried := tried + {candidate};
        counter := counter + 1;
      }
    }
  }

  lemma SmallerSet<T>(a: set<T>, b: set<T>)
    requires a < b
    ensures |a| < |b|
  {
    var d := b - a;
    assert a + d == b && a * d == {};
    assert |b| == |a| + |d|;
  }

  /** `None` stands for the exception raised on an empty name. */
  method ToCIdent(s: string, registry: IdentifierRegistry?, u: Unicode) returns (r: Option<string>)
    modifies registry
    ensures s == "" ==> r == None && (registry != null ==> registry.used == old(registry.used))
    ensures s != "" && registry == null ==> r == Some(BaseName(s, u))
    ensures s != "" && registry != null ==>
              r.Some? && Dedups(old(registry.used).Keys, BaseName(s, u), r.value) &&
              registry.used == old(registry.used)[r.value := 1]
  {
    hide Dedups, Spell, Collapse, IsKeyword;
    if s == "" {
      return None;
    }
    var result := "";
    for i := 0 to |s|
      invariant result == SpellAll(s[..i], u)
    {
      assert s[..i + 1][..i] == s[..i];
      result := result + Spell(s[i], u);
    }
    assert s[..|s|] == s;
    var base := CollapseRuns(result);
    base := TrimRight(TrimLeft(base));
    if base == "" {
      base := "empty";
    }
    if IsDigit(base[0]) || (!IsAscii(base[0]) && u.digit(base[0])) {
      base := "_" + base;
    }
    if IsKeyword(LowerOf(base, u)) {
      base := base + "_";
    }
    assert base == BaseName(s, u);
    if registry == null {
      return Some(base);
    }
    var unique := registry.Dedup(base);
    r := Some(unique);
  }

  function Elements(ids: seq<string>): set<string> {
    set x | x in ids
  }

  /** The identifiers that names get, one after the other, from one registry. */
  ghost predicate IsRun(names: seq<string>, ids: seq<string>, u: Unicode) {
    |ids| == |names| && forall i :: 0 <= i < |names| ==> Dedups(Elements(ids[..i]), BaseName(names[i], u), ids[i])
  }

  method Identifiers(names: seq<string>, u: Unicode) returns (ids: seq<string>)
    requires forall s <- names :: s != ""
    ensures IsRun(names, ids, u)
  {
    hide Dedups, BaseName;
    var registry := new IdentifierRegistry();
    ids := [];
    for k := 0 to |names|
      invariant |ids| == k && registry.used.Keys == Elements(ids)
      invariant forall i :: 0 <= i < k ==> Dedups(Elements(ids[..i]), BaseName(names[i], u), ids[i])
    {
      assert names[k] in names;
      assert ids[..k] == ids;
      var r := ToCIdent(names[k], registry, u);
      ghost var before := ids;
      ids := ids + [r.value];
      assert forall i :: 0 <= i <= k ==> ids[..i] == before[..i];
    }
  }

  /** Numbering makes no identifier of what is none. */
  lemma OnlyIdentifiersNumbered(s: string, n: nat)
    requires !(forall c <- s :: IsWordChar(c))
    ensures !IsIdentifier(Numbered(s, n))
  {
    hide IsKeyword, IsWordChar;
    var c :| c in s && !IsWordChar(c);
    assert c in Numbered(s, n);
  }

  /** Through one registry all names get different identifiers; each is legal and no keyword, exactly if its name
      has no letter or digit beyond ASCII. */
  lemma RunIsDistinctAndLegal(names: seq<string>, ids: seq<string>, u: Unicode)
    requires IsRun(names, ids, u)
    ensures forall i, j :: 0 <= i < j < |ids| ==> ids[i] != ids[j]
    ensures forall i :: 0 <= i < |ids| ==> (IsIdentifier(ids[i]) <==> !HasForeign(names[i], u))
  {
    hide BaseName, IsIdentifier, Numbered, HasForeign, IsWordChar;
    forall i, j | 0 <= i < j < |ids| ensures ids[i] != ids[j] {
      assert ids[i] == ids[..j][i];
      assert ids[i] in Elements(ids[..j]);
      assert Dedups(Elements(ids[..j]), BaseName(names[j], u), ids[j]);
    }
    forall i | 0 <= i < |ids| ensures IsIdentifier(ids[i]) <==> !HasForeign(names[i], u) {
      var base := BaseName(names[i], u);
      BaseIsIdentifier(names[i], u);
      assert Dedups(Elements(ids[..i]), base, ids[i]);
      if ids[i] != base {
        var n: nat :| ids[i] == Numbered(base, n);
        if HasForeign(names[i], u) {
          ForeignBase(names[i], u);
          OnlyIdentifiersNumbered(base, n);
        } else {
          NumberedIsIdentifier(base, n);
        }
      }
    }
  }
}
