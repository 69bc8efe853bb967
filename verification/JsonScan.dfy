/**
 Recovering one JSON object from noisy model output (internal/analyze/vision.go).

 The scanner is a byte loop over three variables, specified by what it returns: the shortest slice from
 the first opening brace at which the brace depth outside strings is back to zero. That is then tied to
 the JSON grammar, through texts printed from a concrete syntax tree.
 */
module JsonScan {

  newtype byte = b: int | 0 <= b < 256

  type Bytes = seq<byte>

  const QUOTE: byte := 0x22
  const BACKSLASH: byte := 0x5C
  const OPEN_BRACE: byte := 0x7B
  const CLOSE_BRACE: byte := 0x7D

  /** The three loop variables. */
  datatype Scan = Scan(depth: int, inString: bool, escaped: bool)

  datatype ScanResult = Found(slice: Bytes) | NoObject | Unterminated

  const START := Scan(0, false, false)

  function Feed(s: Scan, b: byte): Scan {
    if s.inString then
      if s.escaped then s.(escaped := false)
      else if b == BACKSLASH then s.(escaped := true)
      else if b == QUOTE then s.(inString := false)
      else s
    else if b == QUOTE then s.(inString := true)
    else if b == OPEN_BRACE then s.(depth := s.depth + 1)
    else if b == CLOSE_BRACE then s.(depth := s.depth - 1)
    else s
  }

  function FeedAll(s: Scan, text: Bytes): Scan {
    if text == [] then s else Feed(FeedAll(s, text[..|text| - 1]), text[|text| - 1])
  }

  /** The depth outside strings is back to zero after a non-empty text. */
  predicate Balanced(text: Bytes) {
    text != [] && FeedAll(START, text).depth == 0
  }

  /** `start` is the first opening brace of `text`. */
  predicate IsFirstBrace(text: Bytes, start: nat) {
    start < |text| && text[start] == OPEN_BRACE && forall k | 0 <= k < start :: text[k] != OPEN_BRACE
  }

  /** What the scanner promises for each of its three outcomes. */
  ghost predicate IsFirstObject(text: Bytes, r: ScanResult) {
    match r
    case NoObject => OPEN_BRACE !in text
    case Unterminated =>
      exists start: nat ::
        IsFirstBrace(text, start) && forall n | start < n <= |text| :: !Balanced(text[start..n])
    case Found(slice) =>
      exists start: nat, end: nat ::
        && IsFirstBrace(text, start) && start < end <= |text| && slice == text[start..end]
        && Balanced(text[start..end]) && forall n | start < n < end :: !Balanced(text[start..n])
  }

  method FirstJsonObject(text: Bytes) returns (r: ScanResult)
    ensures IsFirstObject(text, r)
  {
    var start := 0;
    while start < |text| && text[start] != OPEN_BRACE
      invariant start <= |text| && forall k | 0 <= k < start :: text[k] != OPEN_BRACE
    {
      start := start + 1;
    }
    if start == |text| {
      return NoObject;
    }
    assert IsFirstBrace(text, start);
    var depth, inString, escaped := 0, false, false;
    var i := start;
    while i < |text|
      invariant start <= i <= |text|
      invariant Scan(depth, inString, escaped) == FeedAll(START, text[start..i])
      invariant forall n | start < n <= i :: !Balanced(text[start..n])
      invariant if i == start then depth == 0 else depth > 0
    {
      var ch := text[i];
      assert text[start..i + 1][..i - start] == text[start..i];
      assert Balanced(text[start..i + 1]) <==> Feed(Scan(depth, inString, escaped), ch).depth == 0;
      i := i + 1;
      if inString {
        if escaped {
          escaped := false;
          continue;
        }
        if ch == BACKSLASH {
          escaped := true;
          continue;
        }
        if ch == QUOTE {
          inString := false;
        }
        continue;
      }
      if ch == QUOTE {
        inString := true;
      } else if ch == OPEN_BRACE {
        depth := depth + 1;
      } else if ch == CLOSE_BRACE {
        depth := depth - 1;
        if depth == 0 {
          return Found(text[start..i]);
        }
      }
    }
    return Unterminated;
  }

  /** The promise leaves no freedom: each text has exactly one outcome. */
  lemma FirstObjectUnique(text: Bytes, r: ScanResult, r': ScanResult)
    requires IsFirstObject(text, r) && IsFirstObject(text, r')
    ensures r == r'
  {
    forall a: nat | IsFirstBrace(text, a) ensures OPEN_BRACE in text {
      assert text[a] in text;
    }
  }

  lemma {:induction false} FeedAllConcat(s: Scan, a: Bytes, b: Bytes)
    ensures FeedAll(s, a + b) == FeedAll(FeedAll(s, a), b)
  {
    if b == [] {
      assert a + b == a;
    } else {
      FeedAllConcat(s, a, b[..|b| - 1]);
      assert (a + b)[..|a + b| - 1] == a + b[..|b| - 1];
    }
  }

  /** While `text` is fed from `s`, the depth never falls below `floor`. */
  ghost predicate StaysAbove(s: Scan, text: Bytes, floor: int) {
    forall n | 0 <= n <= |text| :: FeedAll(s, text[..n]).depth >= floor
  }

  lemma StaysAboveConcat(s: Scan, a: Bytes, b: Bytes, floor: int)
    requires StaysAbove(s, a, floor) && StaysAbove(FeedAll(s, a), b, floor)
    ensures StaysAbove(s, a + b, floor)
  {
    forall n | 0 <= n <= |a + b| ensures FeedAll(s, (a + b)[..n]).depth >= floor {
      if n <= |a| {
        assert (a + b)[..n] == a[..n];
      } else {
        assert (a + b)[..n] == a + b[..n - |a|];
        FeedAllConcat(s, a, b[..n - |a|]);
      }
    }
  }

  /** `text` leaves the scanner as it found it and never dips below the starting depth. */
  ghost predicate Neutral(s: Scan, text: Bytes) {
    FeedAll(s, text) == s && StaysAbove(s, text, s.depth)
  }

  lemma NeutralConcat(s: Scan, a: Bytes, b: Bytes)
    requires Neutral(s, a) && Neutral(s, b)
    ensures Neutral(s, a + b)
  {
    FeedAllConcat(s, a, b);
    StaysAboveConcat(s, a, b, s.depth);
  }

  lemma {:induction false} NeutralBytes(s: Scan, text: Bytes)
    requires forall b | b in text :: Feed(s, b) == s
    ensures Neutral(s, text)
  {
    if text != [] {
      var front := text[..|text| - 1];
      NeutralBytes(s, front);
      assert text == front + [text[|text| - 1]];
      assert FeedAll(s, [text[|text| - 1]]) == s by {
        assert [text[|text| - 1]][..0] == [];
      }
      forall n | 0 <= n <= |text| ensures FeedAll(s, text[..n]).depth >= s.depth {
        if n < |text| { assert text[..n] == front[..n]; } else { assert text[..n] == text; }
      }
    }
  }

  // ---- Concrete syntax: sections 2 to 5 and 7 of RFC 8259 ----

  datatype Char = Plain(b: byte) | Escape(b: byte) | Unicode(hex: Bytes)

  /** A value with the spelling the writer chose: whitespace, escapes and number format included. */
  datatype Value =
    | Literal(token: Bytes)
    | Text(chars: seq<Char>)
    | Array(blank: Bytes, items: seq<Item>)
    | Object(blank: Bytes, members: seq<Member>)

  datatype Item = Item(before: Bytes, value: Value, after: Bytes)

  datatype Member = Member(before: Bytes, key: seq<Char>, beforeColon: Bytes, item: Item)

  predicate IsBlank(text: Bytes) {
    forall b | b in text :: b == 0x20 || b == 0x09 || b == 0x0A || b == 0x0D
  }

  predicate IsHexDigit(b: byte) {
    0x30 <= b <= 0x39 || 0x41 <= b <= 0x46 || 0x61 <= b <= 0x66
  }

  /** A byte of a number or of one of the three literal names. */
  predicate IsTokenByte(b: byte) {
    0x30 <= b <= 0x39 || 0x41 <= b <= 0x5A || 0x61 <= b <= 0x7A || b == 0x2B || b == 0x2D || b == 0x2E
  }

  predicate LegalChar(c: Char) {
    match c
    case Plain(b) => b >= 0x20 && b != QUOTE && b != BACKSLASH
    case Escape(b) => b in {QUOTE, BACKSLASH, 0x2F, 0x62, 0x66, 0x6E, 0x72, 0x74}
    case Unicode(hex) => |hex| == 4 && forall b | b in hex :: IsHexDigit(b)
  }

  predicate LegalChars(chars: seq<Char>) {
    forall c | c in chars :: LegalChar(c)
  }

  predicate Legal(v: Value)
    decreases v
  {
    match v
    case Literal(token) => token != [] && forall b | b in token :: IsTokenByte(b)
    case Text(chars) => LegalChars(chars)
    case Array(blank, items) =>
      IsBlank(blank) && forall k | 0 <= k < |items| :: LegalItem(items[k])
    case Object(blank, members) =>
      && IsBlank(blank)
      && forall k | 0 <= k < |members| :: LegalMember(members[k])
  }

  predicate LegalItem(i: Item)
    decreases i
  {
    IsBlank(i.before) && IsBlank(i.after) && Legal(i.value)
  }

  predicate LegalMember(m: Member)
    decreases m
  {
    IsBlank(m.before) && LegalChars(m.key) && IsBlank(m.beforeColon) && LegalItem(m.item)
  }

  function PrintChar(c: Char): Bytes {
    match c
    case Plain(b) => [b]
    case Escape(b) => [BACKSLASH, b]
    case Unicode(hex) => [BACKSLASH, 0x75] + hex
  }

  function PrintChars(chars: seq<Char>): Bytes {
    if chars == [] then [] else PrintChar(chars[0]) + PrintChars(chars[1..])
  }

  function PrintText(chars: seq<Char>): Bytes {
    [QUOTE] + PrintChars(chars) + [QUOTE]
  }

  function Print(v: Value): Bytes
    decreases v
  {
    match v
    case Literal(token) => token
    case Text(chars) => PrintText(chars)
    case Array(blank, items) => [0x5B] + blank + PrintItems(items) + [0x5D]
    case Object(blank, members) => [OPEN_BRACE] + (blank + PrintMembers(members)) + [CLOSE_BRACE]
  }

  function PrintItem(i: Item): Bytes
    decreases i
  {
    i.before + Print(i.value) + i.after
  }

  function PrintItems(items: seq<Item>): Bytes
    decreases items
  {
    if items == [] then []
    else if |items| == 1 then PrintItem(items[0])
    else PrintItem(items[0]) + [0x2C] + PrintItems(items[1..])
  }

  function PrintMember(m: Member): Bytes
    decreases m
  {
    m.before + PrintText(m.key) + m.beforeColon + [0x3A] + PrintItem(m.item)
  }

  function PrintMembers(members: seq<Member>): Bytes
    decreases members
  {
    if members == [] then []
    else if |members| == 1 then PrintMember(members[0])
    else PrintMember(members[0]) + [0x2C] + PrintMembers(members[1..])
  }

  lemma NeutralChar(s: Scan, c: Char)
    requires s.inString && !s.escaped && LegalChar(c)
    ensures Neutral(s, PrintChar(c))
  {
    match c
    case Plain(b) =>
      NeutralBytes(s, [b]);
    case Escape(b) =>
      NeutralEscape(s, b);
    case Unicode(hex) =>
      NeutralEscape(s, 0x75);
      NeutralBytes(s, hex);
      NeutralConcat(s, [BACKSLASH, 0x75], hex);
  }

  lemma NeutralEscape(s: Scan, b: byte)
    requires s.inString && !s.escaped
    ensures Neutral(s, [BACKSLASH, b])
  {
    var pair := [BACKSLASH, b];
    assert pair[..0] == [] && pair[..1] == [BACKSLASH] && pair[..2] == pair;
    assert [BACKSLASH][..0] == [];
    assert FeedAll(s, [BACKSLASH]) == s.(escaped := true);
  }

  lemma {:induction false} NeutralChars(s: Scan, chars: seq<Char>)
    requires s.inString && !s.escaped && LegalChars(chars)
    ensures Neutral(s, PrintChars(chars))
  {
    if chars == [] {
      NeutralBytes(s, []);
    } else {
      NeutralChar(s, chars[0]);
      NeutralChars(s, chars[1..]);
      NeutralConcat(s, PrintChar(chars[0]), PrintChars(chars[1..]));
    }
  }

  /** One byte, a body that is neutral in between, and a byte that undoes the first. */
  lemma Bracketed(s: Scan, open: byte, body: Bytes, close: byte)
    requires var inner := Feed(s, open);
             inner.depth >= s.depth && Neutral(inner, body) && Feed(inner, close) == s
    ensures Neutral(s, [open] + body + [close])
    ensures StaysAbove(Feed(s, open), body, Feed(s, open).depth)
    ensures FeedAll(s, [open]) == Feed(s, open)
  {
    var inner := Feed(s, open);
    assert [open][..0] == [] && [close][..0] == [];
    assert [open][..1] == [open] && [close][..1] == [close];
    FeedAllConcat(s, [open], body);
    FeedAllConcat(s, [open] + body, [close]);
    StaysAboveConcat(s, [open], body, s.depth);
    StaysAboveConcat(s, [open] + body, [close], s.depth);
  }

  lemma NeutralText(s: Scan, chars: seq<Char>)
    requires !s.inString && !s.escaped && LegalChars(chars)
    ensures Neutral(s, PrintText(chars))
  {
    NeutralChars(s.(inString := true), chars);
    Bracketed(s, QUOTE, PrintChars(chars), QUOTE);
  }

  lemma {:induction false} NeutralValue(s: Scan, v: Value)
    requires !s.inString && !s.escaped && Legal(v)
    ensures Neutral(s, Print(v))
    decreases v
  {
    match v
    case Literal(token) =>
      NeutralBytes(s, token);
    case Text(chars) =>
      NeutralText(s, chars);
    case Array(blank, items) =>
      NeutralBytes(s, [0x5B] + blank);
      NeutralItems(s, items);
      NeutralConcat(s, [0x5B] + blank, PrintItems(items));
      NeutralBytes(s, [0x5D]);
      NeutralConcat(s, [0x5B] + blank + PrintItems(items), [0x5D]);
    case Object(blank, members) =>
      NeutralBody(s.(depth := s.depth + 1), blank, members);
      Bracketed(s, OPEN_BRACE, blank + PrintMembers(members), CLOSE_BRACE);
  }

  lemma {:induction false} NeutralBody(s: Scan, blank: Bytes, members: seq<Member>)
    requires !s.inString && !s.escaped && IsBlank(blank)
    requires forall k | 0 <= k < |members| :: LegalMember(members[k])
    ensures Neutral(s, blank + PrintMembers(members))
    decreases members, 1
  {
    NeutralBytes(s, blank);
    NeutralMembers(s, members);
    NeutralConcat(s, blank, PrintMembers(members));
  }

  lemma {:induction false} NeutralItem(s: Scan, i: Item)
    requires !s.inString && !s.escaped && LegalItem(i)
    ensures Neutral(s, PrintItem(i))
    decreases i
  {
    NeutralBytes(s, i.before);
    NeutralValue(s, i.value);
    NeutralBytes(s, i.after);
    NeutralConcat(s, i.before, Print(i.value));
    NeutralConcat(s, i.before + Print(i.value), i.after);
  }

  lemma {:induction false} NeutralItems(s: Scan, items: seq<Item>)
    requires !s.inString && !s.escaped
    requires forall k | 0 <= k < |items| :: LegalItem(items[k])
    ensures Neutral(s, PrintItems(items))
    decreases items
  {
    if items == [] {
      NeutralBytes(s, []);
    } else {
      NeutralItem(s, items[0]);
      if |items| > 1 {
        NeutralBytes(s, [0x2C]);
        NeutralItems(s, items[1..]);
        NeutralConcat(s, PrintItem(items[0]), [0x2C]);
        NeutralConcat(s, PrintItem(items[0]) + [0x2C], PrintItems(items[1..]));
      }
    }
  }

  lemma {:induction false} NeutralMember(s: Scan, m: Member)
    requires !s.inString && !s.escaped && LegalMember(m)
    ensures Neutral(s, PrintMember(m))
    decreases m
  {
    NeutralBytes(s, m.before);
    NeutralText(s, m.key);
    NeutralConcat(s, m.before, PrintText(m.key));
    NeutralBytes(s, m.beforeColon);
    NeutralConcat(s, m.before + PrintText(m.key), m.beforeColon);
    NeutralBytes(s, [0x3A]);
    NeutralConcat(s, m.before + PrintText(m.key) + m.beforeColon, [0x3A]);
    NeutralItem(s, m.item);
    NeutralConcat(s, m.before + PrintText(m.key) + m.beforeColon + [0x3A], PrintItem(m.item));
  }

  lemma {:induction false} NeutralMembers(s: Scan, members: seq<Member>)
    requires !s.inString && !s.escaped
    requires forall k | 0 <= k < |members| :: LegalMember(members[k])
    ensures Neutral(s, PrintMembers(members))
    decreases members, 0
  {
    if members == [] {
      NeutralBytes(s, []);
    } else {
      NeutralMember(s, members[0]);
      if |members| > 1 {
        NeutralBytes(s, [0x2C]);
        NeutralMembers(s, members[1..]);
        NeutralConcat(s, PrintMember(members[0]), [0x2C]);
        NeutralConcat(s, PrintMember(members[0]) + [0x2C], PrintMembers(members[1..]));
      }
    }
  }

  /** A printed object is balanced, and no proper prefix of it is. */
  lemma PrintedObjectBalanced(v: Value)
    requires v.Object? && Legal(v)
    ensures Balanced(Print(v)) && Print(v)[0] == OPEN_BRACE
    ensures forall n | 0 < n < |Print(v)| :: !Balanced(Print(v)[..n])
  {
    var text, body := Print(v), v.blank + PrintMembers(v.members);
    NeutralValue(START, v);
    NeutralBody(Scan(1, false, false), v.blank, v.members);
    Bracketed(START, OPEN_BRACE, body, CLOSE_BRACE);
    forall n | 0 < n < |text| ensures !Balanced(text[..n]) {
      assert text[..n] == [OPEN_BRACE] + body[..n - 1];
      FeedAllConcat(START, [OPEN_BRACE], body[..n - 1]);
    }
  }

  /** Round trip: a printed object is recovered from any surrounding noise that opens no brace first. */
  lemma PrintThenScan(prefix: Bytes, v: Value, suffix: Bytes, r: ScanResult)
    requires v.Object? && Legal(v) && OPEN_BRACE !in prefix
    requires IsFirstObject(prefix + Print(v) + suffix, r)
    ensures r == Found(Print(v))
  {
    var text, start, end := prefix + Print(v) + suffix, |prefix|, |prefix| + |Print(v)|;
    PrintedObjectBalanced(v);
    assert text[..start] == prefix;
    assert IsFirstBrace(text, start);
    assert text[start..end] == Print(v);
    forall n | start < n < end ensures !Balanced(text[start..n]) {
      assert text[start..n] == Print(v)[..n - start];
    }
    assert IsFirstObject(text, Found(text[start..end]));
    FirstObjectUnique(text, r, Found(Print(v)));
  }

  lemma LaterTextIgnored(text: Bytes, suffix: Bytes, start: nat, end: nat)
    requires IsFirstBrace(text, start) && start < end <= |text|
    requires Balanced(text[start..end]) && forall n | start < n < end :: !Balanced(text[start..n])
    ensures IsFirstObject(text + suffix, Found(text[start..end]))
  {
    var longer := text + suffix;
    assert longer[..start] == text[..start] && longer[start..end] == text[start..end];
    assert IsFirstBrace(longer, start);
    forall n | start < n < end ensures !Balanced(longer[start..n]) {
      assert longer[start..n] == text[start..n];
    }
  }

  lemma ObjectFindsItself(text: Bytes, start: nat, end: nat)
    requires IsFirstBrace(text, start) && start < end <= |text|
    requires Balanced(text[start..end]) && forall n | start < n < end :: !Balanced(text[start..n])
    ensures IsFirstObject(text[start..end], Found(text[start..end]))
  {
    var slice := text[start..end];
    assert IsFirstBrace(slice, 0) && slice[0..|slice|] == slice;
    forall n | 0 < n < |slice| ensures !Balanced(slice[0..n]) {
      assert slice[0..n] == text[start..start + n];
    }
  }

  /** Text after the object never matters, and scanning a found object finds it again. */
  lemma ScanIgnoresSuffix(text: Bytes, suffix: Bytes, slice: Bytes)
    requires IsFirstObject(text, Found(slice))
    ensures IsFirstObject(text + suffix, Found(slice))
    ensures IsFirstObject(slice, Found(slice))
  {
    var start: nat, end: nat :|
      && IsFirstBrace(text, start) && start < end <= |text| && slice == text[start..end]
      && Balanced(text[start..end]) && forall n | start < n < end :: !Balanced(text[start..n]);
    LaterTextIgnored(text, suffix, start, end);
    ObjectFindsItself(text, start, end);
  }
}
