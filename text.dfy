/**
 * The Python `str` operations the visualiser relies on, over `string`
 * (`seq<char>`): `split` with a one-character separator and its inverse
 * `join`, slicing `s[:n]` / `s[n:]`, `startswith`, `strip()` and
 * `replace('\x00', '')`.
 */
module Text {

  /** Number of occurrences of `c` in `s` (Python `s.count(c)`). */
  function Count(s: string, c: char): nat
  {
    if s == [] then 0 else (if s[0] == c then 1 else 0) + Count(s[1..], c)
  }

  lemma {:induction false} CountConcat(a: string, b: string, c: char)
    ensures Count(a + b, c) == Count(a, c) + Count(b, c)
  {
    if a != [] {
      assert (a + b)[1..] == a[1..] + b;
      CountConcat(a[1..], b, c);
    } else {
      assert a + b == b;
    }
  }

  /** No occurrence is counted exactly when the character is absent. */
  lemma {:induction false} CountAbsent(s: string, c: char)
    ensures Count(s, c) == 0 <==> c !in s
  {
    if s != [] {
      CountAbsent(s[1..], c);
      assert s == [s[0]] + s[1..];
    }
  }

  /**
   * Python `s.split(sep)` for a one-character separator: the pieces between
   * consecutive separators, empty pieces included. There is always one
   * more piece than there are separators, so even "" splits into [""].
   */
  function Split(s: string, sep: char): (parts: seq<string>)
    ensures |parts| == Count(s, sep) + 1
    ensures forall i :: 0 <= i < |parts| ==> sep !in parts[i]
  {
    if s == [] then [""]
    else
      var rest := Split(s[1..], sep);
      if s[0] == sep then [""] + rest
      else [[s[0]] + rest[0]] + rest[1..]
  }

  /** Python `sep.join(parts)`, the reference inverse of `Split`. */
  function Join(parts: seq<string>, sep: char): string
    requires |parts| >= 1
  {
    if |parts| == 1 then parts[0] else parts[0] + [sep] + Join(parts[1..], sep)
  }

  /** Joining the pieces back with the separator gives the original text. */
  lemma {:induction false} JoinOfSplit(s: string, sep: char)
    ensures Join(Split(s, sep), sep) == s
  {
    if s != [] {
      var rest := Split(s[1..], sep);
      JoinOfSplit(s[1..], sep);
      var parts := Split(s, sep);
      if s[0] == sep {
        assert parts[1..] == rest;
      } else if |rest| > 1 {
        assert parts[1..] == rest[1..];
        assert Join(rest, sep) == rest[0] + [sep] + Join(rest[1..], sep);
        assert parts[0] == [s[0]] + rest[0];
        assert s == [s[0]] + s[1..];
      }
    }
  }

  /** Text without the separator is a single piece. */
  lemma {:induction false} SplitWithoutSeparator(s: string, sep: char)
    requires sep !in s
    ensures Split(s, sep) == [s]
  {
    if s != [] {
      SplitWithoutSeparator(s[1..], sep);
      assert [s[0]] + s[1..] == s;
    }
  }

  /** A separator-free prefix followed by a separator is exactly the first piece. */
  lemma {:induction false} SplitAtFirstSeparator(a: string, sep: char, b: string)
    requires sep !in a
    ensures Split(a + [sep] + b, sep) == [a] + Split(b, sep)
  {
    if a == [] {
      assert a + [sep] + b == [sep] + b;
      assert ([sep] + b)[1..] == b;
    } else {
      assert (a + [sep] + b)[1..] == a[1..] + [sep] + b;
      SplitAtFirstSeparator(a[1..], sep, b);
      assert [a[0]] + a[1..] == a;
    }
  }

  /** A separator-free text ended by the separator splits into itself and "". */
  lemma SplitTerminated(a: string, sep: char)
    requires sep !in a
    ensures Split(a + [sep], sep) == [a, ""]
  {
    assert a + [sep] == a + [sep] + "";
    SplitAtFirstSeparator(a, sep, "");
  }

  /** The first piece of `a + b`, for a separator-free `a`, is `a` followed by the first piece of `b`. */
  lemma {:induction false} FirstPieceOfConcat(a: string, sep: char, b: string)
    requires sep !in a
    ensures Split(a + b, sep)[0] == a + Split(b, sep)[0]
  {
    if a == [] {
      assert a + b == b;
    } else {
      assert (a + b)[0] == a[0] != sep;
      assert (a + b)[1..] == a[1..] + b;
      assert Split(a + b, sep)[0] == [a[0]] + Split(a[1..] + b, sep)[0];
      FirstPieceOfConcat(a[1..], sep, b);
      ConcatAssoc([a[0]], a[1..], Split(b, sep)[0]);
      assert [a[0]] + a[1..] == a;
    }
  }

  /** Python `s.endswith(p)`. */
  predicate EndsWith(s: string, p: string)
  {
    |p| <= |s| && s[|s| - |p|..] == p
  }

  /** A join ends with its last piece. */
  lemma {:induction false} JoinEndsWithLast(parts: seq<string>, sep: char)
    requires |parts| >= 1
    ensures EndsWith(Join(parts, sep), parts[|parts| - 1])
  {
    if |parts| > 1 {
      JoinEndsWithLast(parts[1..], sep);
      var front, back := parts[0] + [sep], Join(parts[1..], sep);
      assert (front + back)[|front + back| - |parts[|parts| - 1]|..] == back[|back| - |parts[|parts| - 1]|..];
    }
  }

  /** A join of two or more pieces starts with the first two around a separator. */
  lemma JoinStartsWithTwo(parts: seq<string>, sep: char)
    requires |parts| >= 2
    ensures StartsWith(Join(parts, sep), parts[0] + [sep] + parts[1])
  {
    var rest := parts[1..];
    if |rest| > 1 {
      assert Join(rest, sep) == rest[0] + [sep] + Join(rest[1..], sep);
      ConcatAssoc(parts[0] + [sep], parts[1], [sep] + Join(rest[1..], sep));
    }
  }

  /** Splitting a join of separator-free pieces gives the pieces back. */
  lemma {:induction false} SplitOfJoin(parts: seq<string>, sep: char)
    requires |parts| >= 1
    requires forall i :: 0 <= i < |parts| ==> sep !in parts[i]
    ensures Split(Join(parts, sep), sep) == parts
  {
    if |parts| == 1 {
      SplitWithoutSeparator(parts[0], sep);
    } else {
      SplitOfJoin(parts[1..], sep);
      SplitAtFirstSeparator(parts[0], sep, Join(parts[1..], sep));
    }
  }

  /** A character absent from the text is absent from every piece of it. */
  lemma {:induction false} SplitKeepsAbsence(s: string, sep: char, c: char)
    requires c !in s
    ensures forall i :: 0 <= i < |Split(s, sep)| ==> c !in Split(s, sep)[i]
  {
    if s != [] {
      SplitKeepsAbsence(s[1..], sep, c);
    }
  }

  /** Concatenation regroups freely; stated once so that long texts need not be unfolded. */
  lemma ConcatAssoc(a: string, b: string, c: string)
    ensures a + b + c == a + (b + c)
  {
  }

  /** Python `s[:n]` for `n >= 0`: the first `n` characters, or all of `s`. */
  function Take(s: string, n: nat): (r: string)
    ensures |r| == if n <= |s| then n else |s|
    ensures r <= s
  {
    if n <= |s| then s[..n] else s
  }

  /** Python `s[n:]` for `n >= 0`: everything after the first `n` characters. */
  function Drop(s: string, n: nat): (r: string)
    ensures |r| == if n <= |s| then |s| - n else 0
  {
    if n <= |s| then s[n..] else ""
  }

  /** `s[:n] + s[n:] == s` for every `n`. */
  lemma TakeDrop(s: string, n: nat)
    ensures Take(s, n) + Drop(s, n) == s
  {
    if n <= |s| {
      assert s[..n] + s[n..] == s;
    }
  }

  /** Python `s.startswith(p)`. */
  predicate StartsWith(s: string, p: string)
  {
    p <= s
  }

  /**
   * Python `c.isspace()`: the ASCII controls TAB through CR and FS through
   * US, the space, NEL, NO-BREAK SPACE, and the Unicode space separators,
   * line and paragraph separators.
   */
  predicate IsSpace(c: char)
  {
    var n := c as int;
    (0x09 <= n <= 0x0D) || (0x1C <= n <= 0x20) || n == 0x85 || n == 0xA0 ||
    n == 0x1680 || (0x2000 <= n <= 0x200A) || n == 0x2028 || n == 0x2029 ||
    n == 0x202F || n == 0x205F || n == 0x3000
  }

  /** Neither end of `s` is whitespace. */
  predicate Trimmed(s: string)
  {
    s == [] || (!IsSpace(s[0]) && !IsSpace(s[|s| - 1]))
  }

  /** Python `s.lstrip()`: the suffix left after dropping leading whitespace. */
  function TrimStart(s: string): (r: string)
    ensures |r| <= |s| && r == s[|s| - |r|..]
    ensures r == [] || !IsSpace(r[0])
    ensures forall i :: 0 <= i < |s| - |r| ==> IsSpace(s[i])
  {
    if s != [] && IsSpace(s[0]) then TrimStart(s[1..]) else s
  }

  /** Python `s.rstrip()`: the prefix left after dropping trailing whitespace. */
  function TrimEnd(s: string): (r: string)
    ensures r <= s
    ensures r == [] || !IsSpace(r[|r| - 1])
    ensures forall i :: |r| <= i < |s| ==> IsSpace(s[i])
  {
    if s != [] && IsSpace(s[|s| - 1]) then TrimEnd(s[..|s| - 1]) else s
  }

  /** Python `s.strip()`. */
  function Trim(s: string): (r: string)
    ensures Trimmed(r)
    ensures |r| <= |s|
  {
    TrimEnd(TrimStart(s))
  }

  /** Trailing whitespace after a text that does not end in whitespace is all `rstrip` removes. */
  lemma {:induction false} TrimEndPadded(s: string, w: string)
    requires s == [] || !IsSpace(s[|s| - 1])
    requires forall i :: 0 <= i < |w| ==> IsSpace(w[i])
    ensures TrimEnd(s + w) == s
  {
    if w != [] {
      var t := s + w;
      assert t[..|t| - 1] == s + w[..|w| - 1];
      TrimEndPadded(s, w[..|w| - 1]);
    } else {
      assert s + w == s;
    }
  }

  /** `lstrip()` of nothing but whitespace is empty. */
  lemma {:induction false} TrimStartBlank(w: string)
    requires forall i :: 0 <= i < |w| ==> IsSpace(w[i])
    ensures TrimStart(w) == []
  {
    if w != [] {
      assert IsSpace(w[0]);
      TrimStartBlank(w[1..]);
    }
  }

  /** Leading whitespace before a text that does not start with whitespace is all `lstrip` removes. */
  lemma {:induction false} TrimStartPadded(w: string, s: string)
    requires forall i :: 0 <= i < |w| ==> IsSpace(w[i])
    requires s == [] || !IsSpace(s[0])
    ensures TrimStart(w + s) == s
  {
    if w != [] {
      assert (w + s)[1..] == w[1..] + s;
      TrimStartPadded(w[1..], s);
    } else {
      assert w + s == s;
    }
  }

  /** `strip()` of a trimmed text followed by whitespace is that text. */
  lemma TrimPadded(s: string, w: string)
    requires Trimmed(s)
    requires forall i :: 0 <= i < |w| ==> IsSpace(w[i])
    ensures Trim(s + w) == s
  {
    if s == [] {
      assert s + w == w;
      TrimStartBlank(w);
    } else {
      assert TrimStart(s + w) == s + w;
    }
    TrimEndPadded(s, w);
  }

  /** Python `s.replace('\x00', '')`: every NUL removed, everything else kept in order. */
  function StripNul(s: string): (r: string)
    ensures '\0' !in r
    ensures |r| <= |s|
  {
    if s == [] then "" else (if s[0] == '\0' then "" else [s[0]]) + StripNul(s[1..])
  }

  /** Stripping works piecewise, so the kept characters stay in their order. */
  lemma {:induction false} StripNulConcat(a: string, b: string)
    ensures StripNul(a + b) == StripNul(a) + StripNul(b)
  {
    if a != [] {
      assert (a + b)[1..] == a[1..] + b;
      StripNulConcat(a[1..], b);
    } else {
      assert a + b == b;
    }
  }

  /** Text without NUL is left unchanged, so stripping is idempotent. */
  lemma {:induction false} StripNulIdentity(s: string)
    ensures StripNul(s) == s <==> '\0' !in s
  {
    if s != [] {
      StripNulIdentity(s[1..]);
    }
  }

  lemma StripNulIdempotent(s: string)
    ensures StripNul(StripNul(s)) == StripNul(s)
  {
    StripNulIdentity(StripNul(s));
  }

  /** Every character other than NUL occurs as often after stripping as before. */
  lemma {:induction false} StripNulKeepsOthers(s: string, c: char)
    requires c != '\0'
    ensures Count(StripNul(s), c) == Count(s, c)
  {
    if s != [] {
      StripNulKeepsOthers(s[1..], c);
      var head: string := if s[0] == '\0' then "" else [s[0]];
      CountConcat(head, StripNul(s[1..]), c);
    }
  }
}
