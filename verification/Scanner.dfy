/** The string-aware brace scanner and the JSON texts it has to find (autarch/util.py). */
module Scanner {
  import opened Prelude

  /** What the scanner remembers between characters. */
  datatype Mode = Mode(depth: int, inString: bool, escaped: bool)

  function Outside(depth: int): Mode {
    Mode(depth, false, false)
  }

  function Inside(depth: int): Mode {
    Mode(depth, true, false)
  }

  function Step(m: Mode, ch: char): Mode {
    if m.inString then
      if m.escaped then m.(escaped := false)
      else if ch == '\\' then m.(escaped := true)
      else if ch == '"' then m.(inString := false)
      else m
    else if ch == '"' then m.(inString := true)
    else if ch == '{' then m.(depth := m.depth + 1)
    else if ch == '}' then m.(depth := m.depth - 1)
    else m
  }

  function After(m: Mode, s: string): Mode {
    if s == "" then m else Step(After(m, s[..|s| - 1]), s[|s| - 1])
  }

  /** From the first opening brace, the shortest non-empty stretch after which the
      brace depth outside strings is back to zero. */
  ghost predicate FirstBalanced(text: string, start: nat, end: nat) {
    && start < end <= |text|
    && text[start] == '{' && (forall i :: 0 <= i < start ==> text[i] != '{')
    && After(Outside(0), text[start..end]).depth == 0
    && (forall k :: start < k < end ==> After(Outside(0), text[start..k]).depth != 0)
  }

  lemma FirstBalancedUnique(text: string, s: nat, e: nat, s': nat, e': nat)
    requires FirstBalanced(text, s, e) && FirstBalanced(text, s', e')
    ensures s == s' && e == e'
  {
  }

  method FirstBalancedObject(text: string) returns (block: Option<string>)
    ensures forall start: nat, end: nat :: FirstBalanced(text, start, end) ==> block == Some(text[start..end])
    ensures block.Some? ==>
            exists start: nat, end: nat :: FirstBalanced(text, start, end) && block == Some(text[start..end])
  {
    var start := 0;
    while start < |text| && text[start] != '{'
      invariant 0 <= start <= |text|
      invariant forall i :: 0 <= i < start ==> text[i] != '{'
    {
      start := start + 1;
    }
    if start == |text| {
      return None;
    }
    var depth, inString, escaped := 0, false, false;
    var i := start;
    while i < |text|
      invariant start <= i <= |text|
      invariant Mode(depth, inString, escaped) == After(Outside(0), text[start..i])
      invariant forall k :: start < k <= i ==> After(Outside(0), text[start..k]).depth != 0
      invariant i > start ==> depth > 0
      invariant escaped ==> inString
    {
      var ch := text[i];
      assert text[start..i + 1][..i - start] == text[start..i];
      assert After(Outside(0), text[start..i + 1]) == Step(Mode(depth, inString, escaped), ch);
      i := i + 1;
      if inString {
        if escaped {
          escaped := false;
        } else if ch == '\\' {
          escaped := true;
        } else if ch == '"' {
          inString := false;
        }
        continue;
      }
      if ch == '"' {
        inString := true;
      } else if ch == '{' {
        depth := depth + 1;
      } else if ch == '}' {
        depth := depth - 1;
        if depth == 0 {
          assert FirstBalanced(text, start, i);
          forall s: nat, e: nat | FirstBalanced(text, s, e)
            ensures s == start && e == i
          {
            FirstBalancedUnique(text, start, i, s, e);
          }
          return Some(text[start..i]);
        }
      }
    }
    return None;
  }

  // -------------------------------------------------------------------- JSON texts

  /** How a character of a string is written: as it is, by a two-character escape, or by
      its code (section 7 of RFC 8259). */
  datatype Piece = Raw(c: char) | Short(c: char) | Code(digits: string)

  predicate IsHexDigit(c: char) {
    '0' <= c <= '9' || 'a' <= c <= 'f' || 'A' <= c <= 'F'
  }

  predicate Permitted(p: Piece) {
    match p
    case Raw(c) => c >= ' ' && c != '"' && c != '\\'
    case Short(c) => c in "\"\\/bfnrt"
    case Code(digits) => |digits| == 4 && forall i :: 0 <= i < 4 ==> IsHexDigit(digits[i])
  }

  function Spell(p: Piece): string {
    match p
    case Raw(c) => [c]
    case Short(c) => ['\\', c]
    case Code(digits) => ['\\', 'u'] + digits
  }

  function SpellAll(pieces: seq<Piece>): string {
    if pieces == [] then "" else SpellAll(pieces[..|pieces| - 1]) + Spell(pieces[|pieces| - 1])
  }

  function Quote(pieces: seq<Piece>): string {
    "\"" + SpellAll(pieces) + "\""
  }

  /** A JSON text with all the choices its writer has: whitespace around every token, and
      how each character of a string is written. A word is a literal name or a number; no
      character of one is a brace or a quote. */
  datatype Json =
    | Word(chars: string)
    | String(pieces: seq<Piece>)
    | Array(space: string, items: seq<Item>)
    | Object(space: string, members: seq<Member>)

  datatype Item = Item(before: string, value: Json, after: string)

  datatype Member = Member(before: string, key: seq<Piece>, gap: string, indent: string, value: Json, after: string)

  predicate IsWordChar(c: char) {
    '0' <= c <= '9' || 'a' <= c <= 'z' || c in "+-.E"
  }

  /** Section 2 of RFC 8259. */
  predicate IsSpace(s: string) {
    forall i :: 0 <= i < |s| ==> s[i] in " \t\n\r"
  }

  predicate PermittedAll(pieces: seq<Piece>) {
    forall p :: p in pieces ==> Permitted(p)
  }

  predicate WellFormed(v: Json) {
    match v
    case Word(chars) => forall i :: 0 <= i < |chars| ==> IsWordChar(chars[i])
    case String(pieces) => PermittedAll(pieces)
    case Array(space, items) =>
      IsSpace(space) && forall x :: x in items ==> IsSpace(x.before) && WellFormed(x.value) && IsSpace(x.after)
    case Object(space, members) =>
      IsSpace(space) && forall m :: m in members ==>
        IsSpace(m.before) && PermittedAll(m.key) && IsSpace(m.gap) && IsSpace(m.indent) && WellFormed(m.value)
          && IsSpace(m.after)
  }

  function Print(v: Json): string
    decreases v, 0
  {
    match v
    case Word(chars) => chars
    case String(pieces) => Quote(pieces)
    case Array(space, items) => "[" + (space + PrintItems(items)) + "]"
    case Object(space, members) => "{" + (space + PrintMembers(members)) + "}"
  }

  function PrintItem(x: Item): string
    decreases x, 1
  {
    x.before + (Print(x.value) + x.after)
  }

  function PrintItems(items: seq<Item>): string
    decreases items, 2
  {
    if items == [] then ""
    else if |items| == 1 then PrintItem(items[0])
    else PrintItem(items[0]) + ("," + PrintItems(items[1..]))
  }

  function PrintMember(m: Member): string
    decreases m, 1
  {
    m.before + (Quote(m.key) + (m.gap + (":" + (m.indent + (Print(m.value) + m.after)))))
  }

  function PrintMembers(members: seq<Member>): string
    decreases members, 2
  {
    if members == [] then ""
    else if |members| == 1 then PrintMember(members[0])
    else PrintMember(members[0]) + ("," + PrintMembers(members[1..]))
  }

  // ----------------------------------------------------- that these are the JSON texts

  lemma HexDigitsAre(c: char)
    ensures IsHexDigit(c) <==> c in "0123456789abcdefABCDEF"
  {
    var hex := "0123456789abcdefABCDEF";
    assert hex[0] == '0' && hex[1] == '1' && hex[2] == '2' && hex[3] == '3' && hex[4] == '4' && hex[5] == '5';
    assert hex[6] == '6' && hex[7] == '7' && hex[8] == '8' && hex[9] == '9' && hex[10] == 'a' && hex[11] == 'b';
    assert hex[12] == 'c' && hex[13] == 'd' && hex[14] == 'e' && hex[15] == 'f' && hex[16] == 'A' && hex[17] == 'B';
    assert hex[18] == 'C' && hex[19] == 'D' && hex[20] == 'E' && hex[21] == 'F';
  }

  /** The characters that may stand raw in a string, the eight short escapes, and the
      characters of numbers and literal names. */
  lemma Alphabet(c: char)
    ensures Permitted(Short(c)) <==> c in ['"', '\\', '/', 'b', 'f', 'n', 'r', 't']
    ensures Permitted(Raw(c)) <==> c as int >= 0x20 && c != '"' && c != '\\'
    ensures c in "0123456789+-.eEtruefalsn" ==> IsWordChar(c)
  {
  }

  lemma {:induction false} PiecesInOrder(pieces: seq<Piece>, p: Piece)
    ensures SpellAll([]) == "" && SpellAll(pieces + [p]) == SpellAll(pieces) + Spell(p)
  {
    assert (pieces + [p])[..|pieces|] == pieces;
  }

  lemma Regroup(first: string, rest: string, last: string)
    ensures first + ("," + (rest + "," + last)) == first + ("," + rest) + "," + last
  {
  }

  /** The items of an array stand in their order with a comma between each two. */
  lemma {:induction false} ItemsInOrder(items: seq<Item>, x: Item)
    ensures PrintItems([]) == ""
    ensures PrintItems(items + [x]) == (if items == [] then "" else PrintItems(items) + ",") + PrintItem(x)
    decreases |items|
  {
    if items != [] {
      var all := items + [x];
      assert all[0] == items[0] && all[1..] == items[1..] + [x];
      assert PrintItems(all) == PrintItem(items[0]) + ("," + PrintItems(items[1..] + [x]));
      ItemsInOrder(items[1..], x);
      if |items| > 1 {
        Regroup(PrintItem(items[0]), PrintItems(items[1..]), PrintItem(x));
      }
    }
  }

  lemma FirstMember(first: Member, rest: seq<Member>)
    requires rest != []
    ensures PrintMembers([first] + rest) == PrintMember(first) + ("," + PrintMembers(rest))
  {
    assert ([first] + rest)[1..] == rest;
  }

  /** And so do the members of an object. */
  lemma {:induction false} MembersInOrder(members: seq<Member>, m: Member)
    ensures PrintMembers([]) == ""
    ensures PrintMembers(members + [m]) == (if members == [] then "" else PrintMembers(members) + ",") + PrintMember(m)
    decreases |members|
  {
    if members == [] {
      assert members + [m] == [m];
    } else {
      var first, rest := members[0], members[1..];
      MembersInOrder(rest, m);
      FirstMember(first, rest + [m]);
      assert [first] + (rest + [m]) == members + [m];
      if rest != [] {
        FirstMember(first, rest);
        assert [first] + rest == members;
        Regroup(PrintMember(first), PrintMembers(rest), PrintMember(m));
      }
    }
  }

  // ------------------------------------------------------------------- neutrality

  /** Scanning s outside strings comes back to where it began and never dips below. */
  ghost predicate Neutral(s: string) {
    forall d :: Level(s, d)
  }

  ghost predicate Level(s: string, d: int) {
    && After(Outside(d), s) == Outside(d)
    && forall k :: 0 <= k <= |s| ==> After(Outside(d), s[..k]).depth >= d
  }

  lemma {:induction false} AfterAppend(m: Mode, a: string, b: string)
    ensures After(m, a + b) == After(After(m, a), b)
    decreases |b|
  {
    if b == "" {
      assert a + b == a;
    } else {
      AfterAppend(m, a, b[..|b| - 1]);
      assert (a + b)[..|a + b| - 1] == a + b[..|b| - 1];
    }
  }

  lemma NeutralAppend(a: string, b: string)
    requires Neutral(a) && Neutral(b)
    ensures Neutral(a + b)
  {
    forall d
      ensures Level(a + b, d)
    {
      assert Level(a, d) && Level(b, d);
      AfterAppend(Outside(d), a, b);
      forall k | 0 <= k <= |a + b|
        ensures After(Outside(d), (a + b)[..k]).depth >= d
      {
        if k <= |a| {
          assert (a + b)[..k] == a[..k];
        } else {
          assert (a + b)[..k] == a + b[..k - |a|];
          AfterAppend(Outside(d), a, b[..k - |a|]);
        }
      }
    }
  }

  predicate Plain(c: char) {
    c != '"' && c != '{' && c != '}'
  }

  lemma {:induction false} PlainIsNeutral(s: string)
    requires forall i :: 0 <= i < |s| ==> Plain(s[i])
    ensures Neutral(s)
    decreases |s|
  {
    if s == "" {
      assert forall d :: Level(s, d);
    } else {
      var init, last := s[..|s| - 1], [s[|s| - 1]];
      PlainIsNeutral(init);
      forall d
        ensures Level(last, d)
      {
        assert last[..0] == "" && last[..1] == last;
      }
      NeutralAppend(init, last);
      assert init + last == s;
    }
  }

  lemma {:induction false} PlainStaysInside(d: int, s: string)
    requires forall i :: 0 <= i < |s| ==> s[i] != '"' && s[i] != '\\'
    ensures After(Inside(d), s) == Inside(d)
    decreases |s|
  {
    if s != "" {
      PlainStaysInside(d, s[..|s| - 1]);
    }
  }

  /** The first two characters of an escape, from within a string literal. */
  lemma EscapeStaysInside(d: int, c: char)
    ensures var e := ['\\', c];
            After(Inside(d), e) == Inside(d) && After(Inside(d), e[..1]).depth == d
              && After(Inside(d), e[..0]).depth == d
  {
    var e := ['\\', c];
    assert e[..1][..0] == "" && e[..2][..1] == e[..1] && e[..2] == e;
    assert After(Inside(d), e[..1]) == Mode(d, true, true);
  }

  /** Within a string literal, a written character returns to the string state and never
      touches the depth. */
  lemma PieceStaysInside(d: int, p: Piece, k: nat)
    requires Permitted(p) && k <= |Spell(p)|
    ensures After(Inside(d), Spell(p)) == Inside(d)
    ensures After(Inside(d), Spell(p)[..k]).depth == d
  {
    var e := Spell(p);
    match p
    case Raw(c) =>
      PlainStaysInside(d, e);
      PlainStaysInside(d, e[..k]);
    case Short(c) =>
      EscapeStaysInside(d, c);
      assert e[..2] == e;
    case Code(digits) =>
      var start: string := ['\\', 'u'];
      EscapeStaysInside(d, 'u');
      PlainStaysInside(d, digits);
      AfterAppend(Inside(d), start, digits);
      if k <= 2 {
        assert e[..k] == start[..k] && start[..2] == start;
      } else {
        assert e[..k] == start + digits[..k - 2];
        PlainStaysInside(d, digits[..k - 2]);
        AfterAppend(Inside(d), start, digits[..k - 2]);
      }
  }

  lemma {:induction false} PiecesComeBack(d: int, pieces: seq<Piece>)
    requires PermittedAll(pieces)
    ensures After(Inside(d), SpellAll(pieces)) == Inside(d)
    decreases |pieces|
  {
    if pieces != [] {
      var init, last := pieces[..|pieces| - 1], pieces[|pieces| - 1];
      assert last in pieces;
      PiecesComeBack(d, init);
      PieceStaysInside(d, last, 0);
      AfterAppend(Inside(d), SpellAll(init), Spell(last));
    }
  }

  lemma {:induction false} PiecesStayInside(d: int, pieces: seq<Piece>, k: nat)
    requires PermittedAll(pieces) && k <= |SpellAll(pieces)|
    ensures After(Inside(d), SpellAll(pieces)[..k]).depth == d
    decreases |pieces|
  {
    if pieces != [] {
      var init, last := pieces[..|pieces| - 1], pieces[|pieces| - 1];
      var text, e := SpellAll(init), Spell(last);
      assert last in pieces;
      if k <= |text| {
        PiecesStayInside(d, init, k);
        assert (text + e)[..k] == text[..k];
      } else {
        PiecesComeBack(d, init);
        PieceStaysInside(d, last, k - |text|);
        assert (text + e)[..k] == text + e[..k - |text|];
        AfterAppend(Inside(d), text, e[..k - |text|]);
      }
    }
  }

  lemma MarkToggles(d: int)
    ensures After(Outside(d), "\"") == Inside(d) && After(Inside(d), "\"") == Outside(d)
  {
    var q := "\"";
    assert q[..|q| - 1] == "" && q[|q| - 1] == '"';
    assert After(Inside(d), q) == Step(After(Inside(d), q[..|q| - 1]), q[|q| - 1]);
    assert After(Outside(d), q) == Step(After(Outside(d), q[..|q| - 1]), q[|q| - 1]);
  }

  lemma QuoteComesBack(s: seq<Piece>, d: int)
    requires PermittedAll(s)
    ensures After(Outside(d), Quote(s)) == Outside(d)
  {
    var e, q := SpellAll(s), "\"";
    MarkToggles(d);
    PiecesComeBack(d, s);
    AfterAppend(Outside(d), q, e);
    AfterAppend(Outside(d), q + e, q);
    assert Quote(s) == q + e + q;
  }

  lemma QuoteStaysUp(s: seq<Piece>, d: int, k: nat)
    requires PermittedAll(s) && k <= |Quote(s)|
    ensures After(Outside(d), Quote(s)[..k]).depth >= d
  {
    var e, q := SpellAll(s), "\"";
    assert Quote(s) == q + e + q;
    if 0 < k <= 1 + |e| {
      assert Quote(s)[..k] == q + e[..k - 1];
      WithinQuote(s, d, k - 1);
    } else if k > 0 {
      assert Quote(s)[..k] == Quote(s);
      QuoteComesBack(s, d);
    }
  }

  lemma WithinQuote(s: seq<Piece>, d: int, k: nat)
    requires PermittedAll(s) && k <= |SpellAll(s)|
    ensures After(Outside(d), "\"" + SpellAll(s)[..k]).depth == d
  {
    MarkToggles(d);
    PiecesStayInside(d, s, k);
    AfterAppend(Outside(d), "\"", SpellAll(s)[..k]);
  }

  lemma QuoteIsNeutral(s: seq<Piece>)
    requires PermittedAll(s)
    ensures Neutral(Quote(s))
  {
    forall d
      ensures Level(Quote(s), d)
    {
      QuoteComesBack(s, d);
      forall k | 0 <= k <= |Quote(s)|
        ensures After(Outside(d), Quote(s)[..k]).depth >= d
      {
        QuoteStaysUp(s, d, k);
      }
    }
  }

  /** A braced neutral text stays at least one level up until its closing brace. */
  lemma BracedStaysUp(s: string, d: int)
    requires Neutral(s)
    ensures var b := "{" + s + "}";
            && After(Outside(d), b) == Outside(d)
            && forall k :: 0 < k < |b| ==> After(Outside(d), b[..k]).depth >= d + 1
  {
    var open, b := "{", "{" + s + "}";
    assert Level(s, d + 1);
    assert open[..0] == "";
    assert After(Outside(d), open) == Outside(d + 1);
    AfterAppend(Outside(d), open, s);
    assert b[..|b| - 1] == open + s;
    forall k | 0 < k < |b|
      ensures After(Outside(d), b[..k]).depth >= d + 1
    {
      assert b[..k] == open + s[..k - 1];
      AfterAppend(Outside(d), open, s[..k - 1]);
    }
  }

  lemma BracedIsNeutral(s: string)
    requires Neutral(s)
    ensures Neutral("{" + s + "}")
  {
    var b := "{" + s + "}";
    forall d
      ensures Level(b, d)
    {
      BracedStaysUp(s, d);
      assert b[..0] == "" && b[..|b|] == b;
    }
  }

  lemma SpaceIsNeutral(s: string)
    requires IsSpace(s)
    ensures Neutral(s)
  {
    PlainIsNeutral(s);
  }

  /** Every JSON text leaves the scanner where it found it. */
  lemma {:induction false} PrintIsNeutral(v: Json)
    requires WellFormed(v)
    ensures Neutral(Print(v))
    decreases v, 0
  {
    match v
    case Word(chars) => PlainIsNeutral(chars);
    case String(pieces) => QuoteIsNeutral(pieces);
    case Array(space, items) =>
      SpaceIsNeutral(space);
      ItemsAreNeutral(items);
      NeutralAppend(space, PrintItems(items));
      PlainIsNeutral("[");
      PlainIsNeutral("]");
      NeutralAppend("[", space + PrintItems(items));
      NeutralAppend("[" + (space + PrintItems(items)), "]");
    case Object(space, members) =>
      SpaceIsNeutral(space);
      MembersAreNeutral(members);
      NeutralAppend(space, PrintMembers(members));
      BracedIsNeutral(space + PrintMembers(members));
  }

  lemma {:induction false} ItemsAreNeutral(items: seq<Item>)
    requires forall x :: x in items ==> IsSpace(x.before) && WellFormed(x.value) && IsSpace(x.after)
    ensures Neutral(PrintItems(items))
    decreases items, 1
  {
    if items == [] {
      PlainIsNeutral("");
    } else {
      var x := items[0];
      PrintIsNeutral(x.value);
      Padded(x.before, Print(x.value), x.after);
      ItemsAreNeutral(items[1..]);
      CommaIsNeutral(PrintItem(x), PrintItems(items[1..]));
    }
  }

  lemma Padded(before: string, s: string, after: string)
    requires IsSpace(before) && Neutral(s) && IsSpace(after)
    ensures Neutral(before + (s + after))
  {
    SpaceIsNeutral(before);
    SpaceIsNeutral(after);
    NeutralAppend(s, after);
    NeutralAppend(before, s + after);
  }

  lemma CommaIsNeutral(a: string, b: string)
    requires Neutral(a) && Neutral(b)
    ensures Neutral(a + ("," + b))
  {
    PlainIsNeutral(",");
    NeutralAppend(",", b);
    NeutralAppend(a, "," + b);
  }

  lemma {:induction false} MembersAreNeutral(members: seq<Member>)
    requires forall m :: m in members ==>
               IsSpace(m.before) && PermittedAll(m.key) && IsSpace(m.gap) && IsSpace(m.indent) && WellFormed(m.value)
                 && IsSpace(m.after)
    ensures Neutral(PrintMembers(members))
    decreases members, 2
  {
    if members == [] {
      PlainIsNeutral("");
    } else {
      var m := members[0];
      PrintIsNeutral(m.value);
      MemberIsNeutral(m);
      MembersAreNeutral(members[1..]);
      CommaIsNeutral(PrintMember(m), PrintMembers(members[1..]));
    }
  }

  lemma MemberIsNeutral(m: Member)
    requires IsSpace(m.before) && PermittedAll(m.key) && IsSpace(m.gap) && IsSpace(m.indent) && IsSpace(m.after)
    requires Neutral(Print(m.value))
    ensures Neutral(PrintMember(m))
  {
    Padded(m.indent, Print(m.value), m.after);
    var value := m.indent + (Print(m.value) + m.after);
    PlainIsNeutral(":");
    NeutralAppend(":", value);
    SpaceIsNeutral(m.gap);
    NeutralAppend(m.gap, ":" + value);
    QuoteIsNeutral(m.key);
    NeutralAppend(Quote(m.key), m.gap + (":" + value));
    SpaceIsNeutral(m.before);
    NeutralAppend(m.before, Quote(m.key) + (m.gap + (":" + value)));
  }

  /** Round trip: whatever prose without an opening brace precedes it and whatever
      follows it, a JSON object - however it was written - is exactly the first balanced
      block. */
  lemma PrintedObjectIsFirstBalanced(prefix: string, v: Json, suffix: string)
    requires v.Object? && WellFormed(v)
    requires forall i :: 0 <= i < |prefix| ==> prefix[i] != '{'
    ensures FirstBalanced(prefix + Print(v) + suffix, |prefix|, |prefix| + |Print(v)|)
  {
    var text, b := prefix + Print(v) + suffix, Print(v);
    SpaceIsNeutral(v.space);
    MembersAreNeutral(v.members);
    NeutralAppend(v.space, PrintMembers(v.members));
    BracedStaysUp(v.space + PrintMembers(v.members), 0);
    assert text[|prefix|..|prefix| + |b|] == b;
    forall k | |prefix| < k < |prefix| + |b|
      ensures After(Outside(0), text[|prefix|..k]).depth != 0
    {
      assert text[|prefix|..k] == b[..k - |prefix|];
    }
  }

  /** The same, on the scanner itself. */
  method RecoverPrinted(prefix: string, v: Json, suffix: string) returns (block: Option<string>)
    requires v.Object? && WellFormed(v)
    requires forall i :: 0 <= i < |prefix| ==> prefix[i] != '{'
    ensures block == Some(Print(v))
  {
    var text := prefix + Print(v) + suffix;
    PrintedObjectIsFirstBalanced(prefix, v, suffix);
    block := FirstBalancedObject(text);
    assert text[|prefix|..|prefix| + |Print(v)|] == Print(v);
  }
}
