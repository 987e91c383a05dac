/** JavaScript string primitives used by the case-conversion helpers:
    ASCII case mapping, `split`, `join`, `trim` and the `\s` character class. */
module Text {

  /** The characters JavaScript's `trim()` removes and `\s` matches
      (WhiteSpace and LineTerminator of ECMA-262). */
  predicate IsWhitespace(c: char) {
    || c == '\t' || c == '\n' || c == '\U{000B}' || c == '\U{000C}' || c == '\r'
    || c == ' ' || c == '\U{00A0}' || c == '\U{1680}' || ('\U{2000}' <= c <= '\U{200A}')
    || c == '\U{2028}' || c == '\U{2029}' || c == '\U{202F}' || c == '\U{205F}'
    || c == '\U{3000}' || c == '\U{FEFF}'
  }

  predicate NoWhitespace(s: string) {
    forall i :: 0 <= i < |s| ==> !IsWhitespace(s[i])
  }

  /** `toUpperCase` on one character, restricted to ASCII letters. */
  function UpperChar(c: char): (r: char)
    ensures ('a' <= c <= 'z') ==> 'A' <= r <= 'Z'
    ensures !('a' <= c <= 'z') ==> r == c
  {
    if 'a' <= c <= 'z' then (c as int - 32) as char else c
  }

  /** `toLowerCase` on one character, restricted to ASCII letters. */
  function LowerChar(c: char): (r: char)
    ensures ('A' <= c <= 'Z') ==> 'a' <= r <= 'z'
    ensures !('A' <= c <= 'Z') ==> r == c
  {
    if 'A' <= c <= 'Z' then (c as int + 32) as char else c
  }

  lemma CaseMapFacts(c: char)
    ensures UpperChar(LowerChar(c)) == UpperChar(c)
    ensures LowerChar(UpperChar(c)) == LowerChar(c)
    ensures LowerChar(LowerChar(c)) == LowerChar(c)
    ensures UpperChar(UpperChar(c)) == UpperChar(c)
    ensures (LowerChar(c) == ' ') == (c == ' ')
    ensures (UpperChar(c) == ' ') == (c == ' ')
    ensures IsWhitespace(LowerChar(c)) == IsWhitespace(c)
  {
  }

  /** `s.toUpperCase()`. */
  function Upper(s: string): (r: string)
    ensures |r| == |s|
    ensures forall i :: 0 <= i < |s| ==> r[i] == UpperChar(s[i])
  {
    if s == [] then [] else [UpperChar(s[0])] + Upper(s[1..])
  }

  /** `s.toLowerCase()`. */
  function Lower(s: string): (r: string)
    ensures |r| == |s|
    ensures forall i :: 0 <= i < |s| ==> r[i] == LowerChar(s[i])
  {
    if s == [] then [] else [LowerChar(s[0])] + Lower(s[1..])
  }

  /** Number of occurrences of `c` in `s`. */
  function Count(s: string, c: char): nat
  {
    if s == [] then 0 else (if s[0] == c then 1 else 0) + Count(s[1..], c)
  }

  /** `s` with every occurrence of `c` removed. */
  function Without(s: string, c: char): (r: string)
    ensures c !in r
    ensures |r| == |s| - Count(s, c)
  {
    if s == [] then [] else (if s[0] == c then [] else [s[0]]) + Without(s[1..], c)
  }

  /** `s.split(d)` for a one-character separator: the pieces between
      occurrences of `d`, empty pieces included. */
  function Split(s: string, d: char): (r: seq<string>)
    ensures |r| == Count(s, d) + 1
    ensures forall k :: 0 <= k < |r| ==> d !in r[k]
  {
    if s == [] then [""]
    else
      var rest := Split(s[1..], d);
      if s[0] == d then [""] + rest else [[s[0]] + rest[0]] + rest[1..]
  }

  /** Without the separator, `split` yields the whole string. */
  lemma {:induction false} SplitNoSeparator(s: string, d: char)
    requires d !in s
    ensures Split(s, d) == [s]
  {
    if s != [] {
      SplitNoSeparator(s[1..], d);
      assert [s[0]] + s[1..] == s;
    }
  }

  /** The first piece ends at the first separator. */
  lemma {:induction false} SplitFirst(a: string, d: char, b: string)
    requires d !in a
    ensures Split(a + [d] + b, d) == [a] + Split(b, d)
  {
    if a == [] {
      assert a + [d] + b == [d] + b;
      assert ([d] + b)[1..] == b;
    } else {
      assert (a + [d] + b)[1..] == a[1..] + [d] + b;
      SplitFirst(a[1..], d, b);
      assert [a[0]] + a[1..] == a;
    }
  }

  /** `ws.join(sep)`. */
  function Join(ws: seq<string>, sep: string): string
  {
    if |ws| == 0 then "" else if |ws| == 1 then ws[0] else ws[0] + sep + Join(ws[1..], sep)
  }

  /** Prepending a character to the first piece prepends it to the joined string. */
  lemma JoinConsChar(c: char, ws: seq<string>, sep: string)
    requires |ws| >= 1
    ensures Join([[c] + ws[0]] + ws[1..], sep) == [c] + Join(ws, sep)
  {
    var v := [[c] + ws[0]] + ws[1..];
    if |ws| > 1 {
      assert v[1..] == ws[1..];
    }
  }

  /** An empty first piece contributes only the separator. */
  lemma JoinConsEmpty(ws: seq<string>, sep: string)
    requires |ws| >= 1
    ensures Join([""] + ws, sep) == sep + Join(ws, sep)
  {
    assert ([""] + ws)[1..] == ws;
  }

  /** `split` and `join` with the same separator are inverse: no character is lost or added. */
  lemma {:induction false} JoinSplit(s: string, d: char)
    ensures Join(Split(s, d), [d]) == s
  {
    if s != [] {
      JoinSplit(s[1..], d);
      var rest := Split(s[1..], d);
      if s[0] == d {
        JoinConsEmpty(rest, [d]);
        assert s == [d] + s[1..];
      } else {
        JoinConsChar(s[0], rest, [d]);
        assert s == [s[0]] + s[1..];
      }
    }
  }

  /** Leading whitespace removed (`trimStart`). */
  function TrimStart(s: string): (r: string)
    ensures |r| <= |s| && r == s[|s| - |r|..]
    ensures r == [] || !IsWhitespace(r[0])
    ensures forall i :: 0 <= i < |s| - |r| ==> IsWhitespace(s[i])
  {
    if s != [] && IsWhitespace(s[0]) then TrimStart(s[1..]) else s
  }

  /** Trailing whitespace removed (`trimEnd`). */
  function TrimEnd(s: string): (r: string)
    ensures |r| <= |s| && r == s[..|r|]
    ensures r == [] || !IsWhitespace(r[|r| - 1])
    ensures forall i :: |r| <= i < |s| ==> IsWhitespace(s[i])
  {
    if s != [] && IsWhitespace(s[|s| - 1]) then TrimEnd(s[..|s| - 1]) else s
  }

  /** `s.trim()`: the slice of `s` left once the whitespace at both ends is removed. */
  function Trim(s: string): (r: string)
    ensures r == [] || (!IsWhitespace(r[0]) && !IsWhitespace(r[|r| - 1]))
  {
    TrimEnd(TrimStart(s))
  }

  /** What `trim` keeps is the slice of `s` between its leading and its
      trailing whitespace. */
  lemma TrimIsSlice(s: string)
    ensures exists i, j :: 0 <= i <= j <= |s| && Trim(s) == s[i..j]
                           && (forall k :: 0 <= k < i ==> IsWhitespace(s[k]))
                           && (forall k :: j <= k < |s| ==> IsWhitespace(s[k]))
  {
    var t := TrimStart(s);
    var r := TrimEnd(t);
    TrimmedSlice(s, t, r);
    var i := |s| - |t|;
    assert Trim(s) == s[i..i + |r|];
  }

  /** A prefix `r` of a suffix `t` of `s`, with whitespace cut from both sides, is a slice. */
  lemma TrimmedSlice(s: string, t: string, r: string)
    requires |t| <= |s| && t == s[|s| - |t|..]
    requires forall k :: 0 <= k < |s| - |t| ==> IsWhitespace(s[k])
    requires |r| <= |t| && r == t[..|r|]
    requires forall k :: |r| <= k < |t| ==> IsWhitespace(t[k])
    ensures var i := |s| - |t|;
            r == s[i..i + |r|]
            && (forall k :: i + |r| <= k < |s| ==> IsWhitespace(s[k]))
  {
    var i := |s| - |t|;
    forall k | i + |r| <= k < |s|
      ensures IsWhitespace(s[k])
    {
      assert s[k] == t[k - i];
    }
  }

  /** A JavaScript string's `length`: UTF-16 code units, one for a character
      of the Basic Multilingual Plane and two (a surrogate pair) above it. */
  function Utf16Length(s: string): (r: nat)
    ensures |s| <= r <= 2 * |s|
    ensures r == |s| <==> forall i :: 0 <= i < |s| ==> s[i] <= '\U{FFFF}'
  {
    if s == [] then 0
    else
      var rest := Utf16Length(s[1..]);
      assert forall i :: 1 <= i < |s| ==> s[i] == s[1..][i - 1];
      (if s[0] <= '\U{FFFF}' then 1 else 2) + rest
  }

  /** The code units of a concatenation are those of its parts. */
  lemma {:induction false} Utf16LengthConcat(a: string, b: string)
    ensures Utf16Length(a + b) == Utf16Length(a) + Utf16Length(b)
  {
    if a != [] {
      assert (a + b)[1..] == a[1..] + b;
      Utf16LengthConcat(a[1..], b);
    } else {
      assert a + b == b;
    }
  }

  /** Trimming twice trims no more than trimming once. */
  lemma TrimIdempotent(s: string)
    ensures Trim(Trim(s)) == Trim(s)
  {
  }
}
