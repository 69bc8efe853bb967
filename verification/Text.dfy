/**
 The string operations the models need, on ASCII case and white space.

 `Trim` and `ToLower` stand for strings.TrimSpace and strings.ToLower, and `TrimStart` and `TrimEnd` for
 the library's trimming by a set of characters. Strings are sequences of characters, so the source's
 distinction between bytes and runes does not arise: where it counts bytes, the text is ASCII by then.
 The lemmas say what trimming and lower case leave of a text: trimmed text has no white space at its
 ends, what is already trimmed or in lower case stays as it is, and trimming twice is trimming once.
 */
module Text {

  predicate IsSpace(c: char) {
    c == ' ' || c == '\t' || c == '\n' || c == '\r' || c == '\U{000B}' || c == '\U{000C}'
  }

  function TrimLeft(s: string): string {
    if s != "" && IsSpace(s[0]) then TrimLeft(s[1..]) else s
  }

  function TrimRight(s: string): string {
    if s != "" && IsSpace(s[|s| - 1]) then TrimRight(s[..|s| - 1]) else s
  }

  /** The text without white space at either end. */
  function Trim(s: string): string {
    TrimRight(TrimLeft(s))
  }

  predicate IsBlank(s: string) {
    forall c | c in s :: IsSpace(c)
  }

  function LowerChar(c: char): char {
    if 'A' <= c <= 'Z' then c - 'A' + 'a' else c
  }

  function ToLower(s: string): string {
    seq(|s|, i requires 0 <= i < |s| => LowerChar(s[i]))
  }

  /** A SHA-256 digest as it is written: 64 hexadecimal digits in lower case. */
  predicate IsHexDigest(v: string) {
    |v| == 64 && forall c | c in v :: '0' <= c <= '9' || 'a' <= c <= 'f'
  }

  /** The text without trailing characters from `cut`. */
  function TrimEnd(s: string, cut: set<char>): (r: string)
    ensures r <= s
  {
    if s != "" && s[|s| - 1] in cut then TrimEnd(s[..|s| - 1], cut) else s
  }

  function TrimStart(s: string, cut: set<char>): string {
    if s != "" && s[0] in cut then TrimStart(s[1..], cut) else s
  }

  /** The digits of a digest. */
  lemma HexDigestExactly(v: string)
    ensures IsHexDigest(v) <==> |v| == 64 && forall c | c in v :: c in "0123456789abcdef"
  {
    forall c
      ensures c in "0123456789abcdef" <==> '0' <= c <= '9' || 'a' <= c <= 'f'
    {
      if '0' <= c <= '9' {
        assert "0123456789abcdef"[(c - '0') as int] == c;
      } else if 'a' <= c <= 'f' {
        assert "0123456789abcdef"[10 + (c - 'a') as int] == c;
      }
    }
  }

  lemma TrimStays(t: string)
    requires t != "" && !IsSpace(t[0]) && !IsSpace(t[|t| - 1])
    ensures Trim(t) == t
  {
  }

  lemma LowerStays(t: string)
    requires forall c | c in t :: LowerChar(c) == c
    ensures ToLower(t) == t
  {
    assert forall i | 0 <= i < |t| :: t[i] in t;
  }

  lemma {:induction false} TrimLeftStops(s: string)
    ensures var t := TrimLeft(s); (t != "" ==> !IsSpace(t[0])) && forall c | c in t :: c in s
  {
    if s != "" && IsSpace(s[0]) {
      TrimLeftStops(s[1..]);
    }
  }

  lemma {:induction false} TrimRightStops(s: string)
    ensures var t := TrimRight(s); t <= s && (t != "" ==> !IsSpace(t[|t| - 1]))
  {
    if s != "" && IsSpace(s[|s| - 1]) {
      TrimRightStops(s[..|s| - 1]);
    }
  }

  /** Trimmed text has no white space at its ends, so trimming it again changes nothing. */
  lemma TrimIsIdempotent(s: string)
    ensures Trim(Trim(s)) == Trim(s) && forall c | c in Trim(s) :: c in s
  {
    TrimLeftStops(s);
    TrimRightStops(TrimLeft(s));
    if Trim(s) != "" {
      assert Trim(s)[0] == TrimLeft(s)[0];
      TrimStays(Trim(s));
    }
  }

  lemma {:induction false} TrimLeftSplits(s: string) returns (front: string)
    ensures s == front + TrimLeft(s) && IsBlank(front)
  {
    if s != "" && IsSpace(s[0]) {
      front := TrimLeftSplits(s[1..]);
      front := [s[0]] + front;
      assert s == [s[0]] + s[1..];
    } else {
      front := "";
    }
  }

  lemma {:induction false} TrimRightSplits(s: string) returns (back: string)
    ensures s == TrimRight(s) + back && IsBlank(back)
  {
    if s != "" && IsSpace(s[|s| - 1]) {
      back := TrimRightSplits(s[..|s| - 1]);
      back := back + [s[|s| - 1]];
      assert s == s[..|s| - 1] + [s[|s| - 1]];
    } else {
      back := "";
    }
  }

  /** Trimming takes white space from the ends and nothing else. */
  lemma TrimExactly(s: string) returns (front: string, back: string)
    ensures s == front + Trim(s) + back && IsBlank(front) && IsBlank(back)
    ensures Trim(s) != "" ==> !IsSpace(Trim(s)[0]) && !IsSpace(Trim(s)[|Trim(s)| - 1])
  {
    front := TrimLeftSplits(s);
    back := TrimRightSplits(TrimLeft(s));
    TrimLeftStops(s);
    TrimRightStops(TrimLeft(s));
    assert front + (Trim(s) + back) == front + Trim(s) + back;
    assert Trim(s) != "" ==> Trim(s)[0] == TrimLeft(s)[0];
  }
}
