/**
 * String helpers over `seq<char>`: trimming, blank tests, ASCII case folding,
 * substring search and lexicographic order. Only ASCII case folding and the
 * ASCII whitespace characters are modelled.
 */
module Text {
  import opened Sorting

  /** The whitespace characters that Kotlin's `trim` and Python's `strip` remove, restricted to ASCII. */
  predicate IsWhitespace(c: char)
  {
    c == ' ' || c == '\t' || c == '\n' || c == '\r' || c == '\U{B}' || c == '\U{C}'
    || ('\U{1C}' <= c <= '\U{1F}')
  }

  function TrimStart(s: string): (r: string)
    ensures |r| <= |s| && r == s[|s| - |r|..]
    ensures |r| > 0 ==> !IsWhitespace(r[0])
    ensures forall i :: 0 <= i < |s| - |r| ==> IsWhitespace(s[i])
  {
    if |s| > 0 && IsWhitespace(s[0]) then TrimStart(s[1..]) else s
  }

  function TrimEnd(s: string): (r: string)
    ensures |r| <= |s| && r == s[..|r|]
    ensures |r| > 0 ==> !IsWhitespace(r[|r| - 1])
    ensures forall i :: |r| <= i < |s| ==> IsWhitespace(s[i])
  {
    if |s| > 0 && IsWhitespace(s[|s| - 1]) then TrimEnd(s[..|s| - 1]) else s
  }

  /** Kotlin's `trim()` / Python's `strip()`. */
  function Trim(s: string): (r: string)
  {
    TrimEnd(TrimStart(s))
  }

  /** Kotlin's `isBlank()` / Python's `s.strip() == ''`. */
  predicate IsBlank(s: string)
  {
    forall i :: 0 <= i < |s| ==> IsWhitespace(s[i])
  }

  /** A string is blank exactly when trimming it leaves nothing. */
  lemma BlankIffTrimEmpty(s: string)
    ensures IsBlank(s) <==> Trim(s) == ""
  {
  }

  function LowerChar(c: char): (r: char)
    ensures 'A' <= c <= 'Z' ==> 'a' <= r <= 'z'
    ensures !('A' <= c <= 'Z') ==> r == c
  {
    if 'A' <= c <= 'Z' then (c as int - 'A' as int + 'a' as int) as char else c
  }

  /** Kotlin's `lowercase()` / Python's `lower()`, on ASCII letters. */
  function Lower(s: string): (r: string)
    ensures |r| == |s|
    ensures forall i :: 0 <= i < |s| ==> r[i] == LowerChar(s[i])
  {
    if |s| == 0 then "" else [LowerChar(s[0])] + Lower(s[1..])
  }

  /** `sub` occurs in `s` at position `i`. */
  predicate OccursAt(s: string, sub: string, i: int)
  {
    0 <= i && i + |sub| <= |s| && s[i..i + |sub|] == sub
  }

  /** Kotlin's `contains` / Python's `in` on strings. */
  predicate Contains(s: string, sub: string)
  {
    exists i :: 0 <= i <= |s| && OccursAt(s, sub, i)
  }

  /** Kotlin's `contains(sub, ignoreCase = true)`, ASCII case folding only. */
  predicate ContainsIgnoreCase(s: string, sub: string)
  {
    Contains(Lower(s), Lower(sub))
  }

  /** Kotlin's / Python's `startsWith`. */
  predicate StartsWith(s: string, prefix: string)
  {
    prefix <= s
  }

  /**
   * Python's `s.replace(target, repl, 1)`: the first occurrence of `target` is
   * replaced by `repl`; a string without `target` is returned unchanged.
   */
  function ReplaceFirst(s: string, target: string, repl: string): (r: string)
    decreases |s|
  {
    if target <= s then repl + s[|target|..]
    else if |s| == 0 then s
    else [s[0]] + ReplaceFirst(s[1..], target, repl)
  }

  /** When the string starts with `target`, only that leading occurrence is rewritten. */
  lemma ReplaceFirstAtStart(s: string, target: string, repl: string)
    requires StartsWith(s, target)
    ensures ReplaceFirst(s, target, repl) == repl + s[|target|..]
    ensures StartsWith(ReplaceFirst(s, target, repl), repl)
  {
  }

  /** A string with no occurrence of `target` is left alone. */
  lemma {:induction false} ReplaceFirstAbsent(s: string, target: string, repl: string)
    requires !Contains(s, target)
    ensures ReplaceFirst(s, target, repl) == s
  {
    if target <= s {
      assert OccursAt(s, target, 0);
    } else if |s| > 0 {
      if Contains(s[1..], target) {
        var i :| 0 <= i <= |s[1..]| && OccursAt(s[1..], target, i);
        assert s[1..][i..i + |target|] == s[i + 1..i + 1 + |target|];
        assert OccursAt(s, target, i + 1);
      }
      ReplaceFirstAbsent(s[1..], target, repl);
    }
  }

  /** Python's string comparison: lexicographic order on code points, a proper prefix first. */
  predicate LexLe(a: string, b: string)
  {
    if |a| == 0 then true
    else if |b| == 0 then false
    else if a[0] != b[0] then a[0] < b[0]
    else LexLe(a[1..], b[1..])
  }

  lemma {:induction false} LexLeTotal(a: string, b: string)
    ensures LexLe(a, b) || LexLe(b, a)
  {
    if |a| > 0 && |b| > 0 && a[0] == b[0] {
      LexLeTotal(a[1..], b[1..]);
    }
  }

  lemma {:induction false} LexLeTransitive(a: string, b: string, c: string)
    requires LexLe(a, b) && LexLe(b, c)
    ensures LexLe(a, c)
  {
    if |a| > 0 && |b| > 0 && |c| > 0 && a[0] == b[0] && b[0] == c[0] {
      LexLeTransitive(a[1..], b[1..], c[1..]);
    }
  }

  lemma {:induction false} LexLeAntisymmetric(a: string, b: string)
    requires LexLe(a, b) && LexLe(b, a)
    ensures a == b
  {
    if |a| > 0 && |b| > 0 {
      LexLeAntisymmetric(a[1..], b[1..]);
      assert a == [a[0]] + a[1..] && b == [b[0]] + b[1..];
    }
  }

  /** The preorder induced by a string key under Python's comparison (`list.sort(key=...)`). */
  function ByStringKey<T>(key: T -> string): (T, T) -> bool
  {
    (x, y) => LexLe(key(x), key(y))
  }

  lemma ByStringKeyTotalPreorder<T(!new)>(key: T -> string)
    ensures TotalPreorder(ByStringKey(key))
  {
    forall x: T, y: T
      ensures ByStringKey(key)(x, y) || ByStringKey(key)(y, x)
    {
      LexLeTotal(key(x), key(y));
    }
    forall x: T, y: T, z: T | ByStringKey(key)(x, y) && ByStringKey(key)(y, z)
      ensures ByStringKey(key)(x, z)
    {
      LexLeTransitive(key(x), key(y), key(z));
    }
  }

  /**
   * The UTF-16 code units of a character: the character itself below
   * U+10000, otherwise its surrogate pair.
   */
  function Utf16Units(c: char): (u: seq<int>)
    ensures c as int < 0x1_0000 ==> u == [c as int]
    ensures c as int >= 0x1_0000 ==>
              |u| == 2 && 0xD800 <= u[0] < 0xDC00 && 0xDC00 <= u[1] < 0xE000
              && (u[0] - 0xD800) * 0x400 + (u[1] - 0xDC00) + 0x1_0000 == c as int
  {
    var v := c as int;
    if v < 0x1_0000 then [v] else [0xD800 + (v - 0x1_0000) / 0x400, 0xDC00 + (v - 0x1_0000) % 0x400]
  }

  /** The UTF-16 encoding of a string, the form Kotlin and Java strings hold. */
  function Utf16(s: string): seq<int>
  {
    if |s| == 0 then [] else Utf16Units(s[0]) + Utf16(s[1..])
  }

  /** Lexicographic order on code units, a proper prefix first. */
  predicate UnitsLe(a: seq<int>, b: seq<int>)
  {
    if |a| == 0 then true
    else if |b| == 0 then false
    else if a[0] != b[0] then a[0] < b[0]
    else UnitsLe(a[1..], b[1..])
  }

  lemma {:induction false} UnitsLeTotal(a: seq<int>, b: seq<int>)
    ensures UnitsLe(a, b) || UnitsLe(b, a)
  {
    if |a| > 0 && |b| > 0 && a[0] == b[0] {
      UnitsLeTotal(a[1..], b[1..]);
    }
  }

  lemma {:induction false} UnitsLeTransitive(a: seq<int>, b: seq<int>, c: seq<int>)
    requires UnitsLe(a, b) && UnitsLe(b, c)
    ensures UnitsLe(a, c)
  {
    if |a| > 0 && |b| > 0 && |c| > 0 && a[0] == b[0] && b[0] == c[0] {
      UnitsLeTransitive(a[1..], b[1..], c[1..]);
    }
  }

  /** Kotlin's String `compareTo`: lexicographic order on UTF-16 code units, a proper prefix first. */
  predicate Utf16Le(a: string, b: string)
  {
    UnitsLe(Utf16(a), Utf16(b))
  }

  /** A string all of whose characters lie below U+10000. */
  predicate InBmp(s: string)
  {
    forall i :: 0 <= i < |s| ==> s[i] as int < 0x1_0000
  }

  /** Below U+10000 a character is its one code unit, so Kotlin's order is Python's. */
  lemma {:induction false} Utf16LeInBmp(a: string, b: string)
    requires InBmp(a) && InBmp(b)
    ensures Utf16Le(a, b) <==> LexLe(a, b)
  {
    if |a| > 0 && |b| > 0 {
      assert Utf16(a) == [a[0] as int] + Utf16(a[1..]);
      assert Utf16(b) == [b[0] as int] + Utf16(b[1..]);
      assert ([a[0] as int] + Utf16(a[1..]))[1..] == Utf16(a[1..]);
      assert ([b[0] as int] + Utf16(b[1..]))[1..] == Utf16(b[1..]);
      assert InBmp(a[1..]) && InBmp(b[1..]);
      Utf16LeInBmp(a[1..], b[1..]);
    }
  }

  /**
   * Above U+FFFF the two orders part: Kotlin puts an emoji (high surrogate
   * 0xD83D) before the full-width letter A (0xFF21), Python after it.
   */
  lemma SurrogatesSortFirst()
    ensures Utf16Le("\U{1F600}", "\U{FF21}") && !Utf16Le("\U{FF21}", "\U{1F600}")
    ensures LexLe("\U{FF21}", "\U{1F600}") && !LexLe("\U{1F600}", "\U{FF21}")
  {
    assert Utf16("\U{1F600}") == [0xD83D, 0xDE00];
    assert Utf16("\U{FF21}") == [0xFF21];
  }

  /** The preorder induced by a string key under Kotlin's `compareTo` (`sortedBy { it.name }`). */
  function ByUtf16Key<T>(key: T -> string): (T, T) -> bool
  {
    (x, y) => Utf16Le(key(x), key(y))
  }

  lemma ByUtf16KeyTotalPreorder<T(!new)>(key: T -> string)
    ensures TotalPreorder(ByUtf16Key(key))
  {
    forall x: T, y: T
      ensures ByUtf16Key(key)(x, y) || ByUtf16Key(key)(y, x)
    {
      UnitsLeTotal(Utf16(key(x)), Utf16(key(y)));
    }
    forall x: T, y: T, z: T | ByUtf16Key(key)(x, y) && ByUtf16Key(key)(y, z)
      ensures ByUtf16Key(key)(x, z)
    {
      UnitsLeTransitive(Utf16(key(x)), Utf16(key(y)), Utf16(key(z)));
    }
  }

  predicate IsAsciiDigit(c: char)
  {
    '0' <= c <= '9'
  }

  /** Python's `str.isdigit()`, on ASCII digits: non-empty and all digits. */
  predicate IsDigits(s: string)
  {
    |s| > 0 && forall i :: 0 <= i < |s| ==> IsAsciiDigit(s[i])
  }
}
