/**
  The parts of Go's `strings` package that the device tools use: Split and Join
  on a one-character separator, TrimSpace, Contains and HasPrefix, and the
  conversion `string(r)` of a rune to its UTF-8 bytes. Text is held as
  sequences of characters. A Go string is a byte sequence; on well-formed UTF-8
  the two views agree for every operation here except cutting a string by a
  byte count, which only the console's Backspace does. The console's command
  lines are therefore held byte by byte: each character of such a line is one
  byte, below 256, and a typed rune adds its `Utf8` encoding.
 */
module GoStrings {

  /** The characters `unicode.IsSpace` accepts, which `strings.TrimSpace` strips. */
  predicate IsSpace(c: char)
  {
    c == ' ' || c == '\t' || c == '\n' || c == '\r' || c == '\U{000B}' || c == '\U{000C}'
    || c == '\U{0085}' || c == '\U{00A0}' || c == '\U{1680}'
    || ('\U{2000}' <= c <= '\U{200A}') || c == '\U{2028}' || c == '\U{2029}'
    || c == '\U{202F}' || c == '\U{205F}' || c == '\U{3000}'
  }

  /**
    `string(r)`: the UTF-8 encoding of a rune, one byte per character of the
    result, in its shortest form. Characters are Unicode scalar values, so the
    replacement Go makes for an invalid rune never arises.
   */
  function Utf8(r: char): (bytes: string)
    ensures 1 <= |bytes| <= 4
    ensures forall k :: 0 <= k < |bytes| ==> bytes[k] as int < 256
    ensures |bytes| == 1 <==> r as int < 0x80
    ensures |bytes| == 1 ==> bytes == [r]
    ensures |bytes| > 1 ==> 0xC0 <= bytes[0] as int
    ensures forall k :: 1 <= k < |bytes| ==> 0x80 <= bytes[k] as int < 0xC0
  {
    var n := r as int;
    if n < 0x80 then [r]
    else if n < 0x800 then [(0xC0 + n / 64) as char, (0x80 + n % 64) as char]
    else if n < 0x10000 then [(0xE0 + n / 64 / 64) as char, (0x80 + n / 64 % 64) as char, (0x80 + n % 64) as char]
    else [(0xF0 + n / 64 / 64 / 64) as char, (0x80 + n / 64 / 64 % 64) as char, (0x80 + n / 64 % 64) as char, (0x80 + n % 64) as char]
  }

  /** The code point a UTF-8 sequence of one to four bytes spells: six payload bits per byte after the lead, high to low. */
  function Utf8Value(bytes: string): int
    requires 1 <= |bytes| <= 4
  {
    if |bytes| == 1 then bytes[0] as int
    else if |bytes| == 2 then (bytes[0] as int - 0xC0) * 64 + (bytes[1] as int - 0x80)
    else if |bytes| == 3 then ((bytes[0] as int - 0xE0) * 64 + (bytes[1] as int - 0x80)) * 64 + (bytes[2] as int - 0x80)
    else (((bytes[0] as int - 0xF0) * 64 + (bytes[1] as int - 0x80)) * 64 + (bytes[2] as int - 0x80)) * 64 + (bytes[3] as int - 0x80)
  }

  /** Decoding the bytes of a rune gives the rune back. */
  lemma Utf8RoundTrip(r: char)
    ensures Utf8Value(Utf8(r)) == r as int
  {
    var n := r as int;
    var e := Utf8(r);
    if n >= 0x10000 {
      assert e[0] as int - 0xF0 == n / 64 / 64 / 64 && e[1] as int - 0x80 == n / 64 / 64 % 64;
      assert e[2] as int - 0x80 == n / 64 % 64 && e[3] as int - 0x80 == n % 64;
      SixBits(n);
      SixBits(n / 64);
      SixBits(n / 64 / 64);
    } else if n >= 0x800 {
      assert e[0] as int - 0xE0 == n / 64 / 64 && e[1] as int - 0x80 == n / 64 % 64 && e[2] as int - 0x80 == n % 64;
      SixBits(n);
      SixBits(n / 64);
    } else if n >= 0x80 {
      SixBits(n);
    }
  }

  /** A number is its low six bits plus 64 times the rest. */
  lemma SixBits(x: int)
    ensures x == x / 64 * 64 + x % 64
  {
  }

  /** Upper-case ASCII letters are not white space. */
  lemma LetterNotSpace(c: char)
    requires 'A' <= c <= 'Z'
    ensures !IsSpace(c)
  {
  }

  /** `strings.Split(s, string(sep))`: the pieces between separators, always at least one. */
  function Split(s: string, sep: char): (parts: seq<string>)
    ensures |parts| >= 1
    decreases |s|
  {
    if s == [] then [""]
    else if s[0] == sep then [""] + Split(s[1..], sep)
    else
      var rest := Split(s[1..], sep);
      [[s[0]] + rest[0]] + rest[1..]
  }

  /** No piece of a split holds the separator. */
  lemma {:induction false} SplitPieces(s: string, sep: char)
    ensures forall i :: 0 <= i < |Split(s, sep)| ==> sep !in Split(s, sep)[i]
    decreases |s|
  {
    if s != [] {
      SplitPieces(s[1..], sep);
      var rest := Split(s[1..], sep);
      if s[0] != sep {
        var parts := Split(s, sep);
        assert parts == [[s[0]] + rest[0]] + rest[1..];
        forall i | 0 <= i < |parts| ensures sep !in parts[i] {
          if i > 0 {
            assert parts[i] == rest[i];
          }
        }
      }
    }
  }

  /** `strings.Join(parts, string(sep))`. */
  function Join(parts: seq<string>, sep: char): string
    decreases |parts|
  {
    if parts == [] then ""
    else if |parts| == 1 then parts[0]
    else parts[0] + [sep] + Join(parts[1..], sep)
  }

  /** Joining the pieces of a split gives back the original text. */
  lemma {:induction false} JoinSplit(s: string, sep: char)
    ensures Join(Split(s, sep), sep) == s
    decreases |s|
  {
    if s == [] {
    } else if s[0] == sep {
      JoinSplit(s[1..], sep);
      var rest := Split(s[1..], sep);
      assert Split(s, sep) == [""] + rest;
      assert ([""] + rest)[1..] == rest;
    } else {
      JoinSplit(s[1..], sep);
      var rest := Split(s[1..], sep);
      var parts := [[s[0]] + rest[0]] + rest[1..];
      assert Split(s, sep) == parts;
      if |rest| == 1 {
        assert Join(parts, sep) == [s[0]] + rest[0];
      } else {
        assert parts[1..] == rest[1..];
        assert Join(rest, sep) == rest[0] + [sep] + Join(rest[1..], sep);
        assert Join(parts, sep) == [s[0]] + rest[0] + [sep] + Join(rest[1..], sep);
      }
    }
  }

  /** Splitting a join of separator-free pieces gives back the pieces. */
  lemma {:induction false} SplitJoin(parts: seq<string>, sep: char)
    requires |parts| >= 1
    requires forall i :: 0 <= i < |parts| ==> sep !in parts[i]
    ensures Split(Join(parts, sep), sep) == parts
    decreases |parts|, |parts[0]|
  {
    if parts[0] == [] {
      if |parts| == 1 {
      } else {
        SplitJoin(parts[1..], sep);
        var j := Join(parts, sep);
        assert j == [sep] + Join(parts[1..], sep);
        assert j[1..] == Join(parts[1..], sep);
        assert parts == [""] + parts[1..];
      }
    } else {
      var head := parts[0];
      var shorter := [head[1..]] + parts[1..];
      assert head[0] != sep;
      forall i | 0 <= i < |shorter| ensures sep !in shorter[i] {
        if i > 0 { assert shorter[i] == parts[i]; }
      }
      SplitJoin(shorter, sep);
      var j := Join(parts, sep);
      var js := Join(shorter, sep);
      if |parts| == 1 {
        assert j == head && js == head[1..];
      } else {
        assert shorter[1..] == parts[1..];
        assert j == head + [sep] + Join(parts[1..], sep);
        assert js == head[1..] + [sep] + Join(parts[1..], sep);
      }
      assert j == [head[0]] + js;
      assert j[1..] == js;
      assert Split(j, sep) == [[head[0]] + Split(js, sep)[0]] + Split(js, sep)[1..];
      assert [head[0]] + shorter[0] == head;
      assert [head] + parts[1..] == parts;
    }
  }

  /** Joining a suffix of the pieces gives a suffix of the joined text. */
  lemma {:induction false} JoinSuffix(parts: seq<string>, sep: char, k: nat)
    requires k <= |parts|
    ensures |Join(parts[k..], sep)| <= |Join(parts, sep)|
    ensures Join(parts[k..], sep) == Join(parts, sep)[|Join(parts, sep)| - |Join(parts[k..], sep)|..]
    decreases k
  {
    if k == 0 {
      assert parts[0..] == parts;
    } else {
      JoinSuffix(parts[1..], sep, k - 1);
      assert parts[1..][k - 1..] == parts[k..];
      if |parts| > 1 {
        assert Join(parts, sep) == parts[0] + [sep] + Join(parts[1..], sep);
      } else {
        assert parts[k..] == [];
      }
    }
  }

  /** A separator splits a text into the pieces of what comes before it followed by the pieces of what comes after it. */
  lemma {:induction false} SplitConcat(a: string, b: string, sep: char)
    ensures Split(a + [sep] + b, sep) == Split(a, sep) + Split(b, sep)
    decreases |a|
  {
    var s := a + [sep] + b;
    if a == [] {
      assert s[0] == sep && s[1..] == b;
    } else {
      assert s[1..] == a[1..] + [sep] + b;
      SplitConcat(a[1..], b, sep);
      if a[0] == sep {
        SplitConcatAtSeparator(a, b, sep);
      } else {
        SplitConcatAtOther(a, b, sep);
      }
    }
  }

  lemma SplitConcatAtSeparator(a: string, b: string, sep: char)
    requires a != [] && a[0] == sep
    requires Split(a[1..] + [sep] + b, sep) == Split(a[1..], sep) + Split(b, sep)
    ensures Split(a + [sep] + b, sep) == Split(a, sep) + Split(b, sep)
  {
    var s := a + [sep] + b;
    assert s[0] == sep && s[1..] == a[1..] + [sep] + b;
    Associative([""], Split(a[1..], sep), Split(b, sep));
  }

  lemma SplitConcatAtOther(a: string, b: string, sep: char)
    requires a != [] && a[0] != sep
    requires Split(a[1..] + [sep] + b, sep) == Split(a[1..], sep) + Split(b, sep)
    ensures Split(a + [sep] + b, sep) == Split(a, sep) + Split(b, sep)
  {
    var s := a + [sep] + b;
    assert s[0] == a[0] && s[1..] == a[1..] + [sep] + b;
    var rest, sb := Split(a[1..], sep), Split(b, sep);
    HeadOfConcat(rest, sb);
    Associative([[a[0]] + rest[0]], rest[1..], sb);
  }

  /** Concatenation of sequences is associative. */
  lemma Associative<T>(x: seq<T>, y: seq<T>, z: seq<T>)
    ensures (x + y) + z == x + (y + z)
  {
  }

  /** Appending one element leaves the sequence before it as the prefix. */
  lemma Snoc<T>(a: seq<T>, x: T)
    ensures |a + [x]| == |a| + 1 && (a + [x])[..|a|] == a && (a + [x])[|a|] == x
  {
  }

  /** The head and tail of a concatenation whose left part is non-empty. */
  lemma HeadOfConcat<T>(x: seq<T>, y: seq<T>)
    requires x != []
    ensures (x + y)[0] == x[0] && (x + y)[1..] == x[1..] + y
  {
  }

  /** A text without the separator is a single piece. */
  lemma SplitWithoutSeparator(s: string, sep: char)
    requires sep !in s
    ensures Split(s, sep) == [s]
  {
    JoinSplit(s, sep);
    SplitPieces(s, sep);
  }

  /** `strings.HasPrefix(s, prefix)`. */
  predicate HasPrefix(s: string, prefix: string)
  {
    |prefix| <= |s| && s[..|prefix|] == prefix
  }

  /** `strings.Contains(s, sub)`: `sub` occurs somewhere in `s`. */
  predicate Contains(s: string, sub: string)
    decreases |s|
  {
    HasPrefix(s, sub) || (s != [] && Contains(s[1..], sub))
  }

  /** `sub` occurs in `s` starting at position `i`. */
  predicate OccursAt(s: string, sub: string, i: int)
  {
    0 <= i <= |s| - |sub| && s[i..i + |sub|] == sub
  }

  /** Contains holds exactly when `sub` occurs at some position of `s`. */
  lemma {:induction false} ContainsAt(s: string, sub: string)
    ensures Contains(s, sub) <==> exists i :: OccursAt(s, sub, i)
    decreases |s|
  {
    if s != [] {
      ContainsAt(s[1..], sub);
      if Contains(s[1..], sub) && !HasPrefix(s, sub) {
        var i :| OccursAt(s[1..], sub, i);
        assert s[i + 1..i + 1 + |sub|] == s[1..][i..i + |sub|];
        assert OccursAt(s, sub, i + 1);
      }
      if HasPrefix(s, sub) {
        assert OccursAt(s, sub, 0);
      }
      if exists i :: OccursAt(s, sub, i) {
        var i :| OccursAt(s, sub, i);
        if i > 0 {
          assert s[1..][i - 1..i - 1 + |sub|] == s[i..i + |sub|];
          assert OccursAt(s[1..], sub, i - 1);
        } else {
          assert HasPrefix(s, sub);
        }
      }
    } else if HasPrefix(s, sub) {
      assert OccursAt(s, sub, 0);
    }
  }

  /** Whatever occurs in one part of a text occurs in the whole. */
  lemma {:induction false} ContainsAppend(a: string, b: string, sub: string)
    ensures Contains(a, sub) ==> Contains(a + b, sub)
    ensures Contains(b, sub) ==> Contains(a + b, sub)
  {
    ContainsAt(a, sub);
    ContainsAt(b, sub);
    ContainsAt(a + b, sub);
    if Contains(a, sub) {
      var i :| OccursAt(a, sub, i);
      assert (a + b)[i..i + |sub|] == a[i..i + |sub|];
      assert OccursAt(a + b, sub, i);
    }
    if Contains(b, sub) {
      var i :| OccursAt(b, sub, i);
      assert (a + b)[|a| + i..|a| + i + |sub|] == b[i..i + |sub|];
      assert OccursAt(a + b, sub, |a| + i);
    }
  }

  /** A text never contains anything longer than itself. */
  lemma {:induction false} ContainsShorter(s: string, sub: string)
    requires |s| < |sub|
    ensures !Contains(s, sub)
  {
    ContainsAt(s, sub);
  }

  /** `s` without its leading white space: only white space is removed, and all of it. */
  function TrimLeft(s: string): (r: string)
    ensures |r| <= |s| && r == s[|s| - |r|..]
    ensures r == [] || !IsSpace(r[0])
    ensures forall k :: 0 <= k < |s| - |r| ==> IsSpace(s[k])
    decreases |s|
  {
    if s != [] && IsSpace(s[0]) then TrimLeft(s[1..]) else s
  }

  /** `s` without its trailing white space: only white space is removed, and all of it. */
  function TrimRight(s: string): (r: string)
    ensures |r| <= |s| && r == s[..|r|]
    ensures r == [] || !IsSpace(r[|r| - 1])
    ensures forall k :: |r| <= k < |s| ==> IsSpace(s[k])
    decreases |s|
  {
    if s != [] && IsSpace(s[|s| - 1]) then TrimRight(s[..|s| - 1]) else s
  }

  /** `r` is the slice of `s` that starts at `i`, with only white space before and after it. */
  predicate SpaceAround(s: string, r: string, i: int)
  {
    && 0 <= i <= |s| - |r| && r == s[i..i + |r|]
    && (forall k :: 0 <= k < i ==> IsSpace(s[k]))
    && (forall k :: i + |r| <= k < |s| ==> IsSpace(s[k]))
  }

  /** `strings.TrimSpace(s)`: `s` without its leading and trailing white space. */
  function TrimSpace(s: string): (r: string)
    ensures |r| <= |s|
    ensures r == [] || (!IsSpace(r[0]) && !IsSpace(r[|r| - 1]))
  {
    TrimRight(TrimLeft(s))
  }

  /**
    Trimming removes white space and nothing else: the result is a slice of `s`
    with only white space before and after it (and, by `TrimSpaceUnique`, the
    only such slice that neither starts nor ends with white space).
   */
  lemma TrimSpaceIsSlice(s: string)
    ensures exists i :: SpaceAround(s, TrimSpace(s), i)
  {
    TrimBothEnds(s);
    assert SpaceAround(s, TrimSpace(s), |s| - |TrimLeft(s)|);
  }

  /** Trimming the left end and then the right end keeps a slice with only white space around it. */
  lemma TrimBothEnds(s: string)
    ensures SpaceAround(s, TrimRight(TrimLeft(s)), |s| - |TrimLeft(s)|)
  {
    SliceAround(s, TrimLeft(s), TrimRight(TrimLeft(s)));
  }

  /** A suffix after white space, cut down to a prefix before white space, has only white space around it. */
  lemma SliceAround(s: string, t: string, r: string)
    requires |t| <= |s| && t == s[|s| - |t|..] && forall k :: 0 <= k < |s| - |t| ==> IsSpace(s[k])
    requires |r| <= |t| && r == t[..|r|] && forall k :: |r| <= k < |t| ==> IsSpace(t[k])
    ensures SpaceAround(s, r, |s| - |t|)
  {
    var i := |s| - |t|;
    assert r == s[i..i + |r|];
    forall k | i + |r| <= k < |s|
      ensures IsSpace(s[k])
    {
      assert s[k] == t[k - i];
    }
  }

  /**
    The characterisation is exact: any slice of `s` with only white space around
    it that neither starts nor ends with white space is `TrimSpace(s)`.
   */
  lemma TrimSpaceUnique(s: string, r: string, i: int)
    requires SpaceAround(s, r, i)
    requires r == [] || (!IsSpace(r[0]) && !IsSpace(r[|r| - 1]))
    ensures r == TrimSpace(s)
  {
    var q := TrimSpace(s);
    TrimSpaceIsSlice(s);
    var j :| SpaceAround(s, q, j);
    AroundUnique(s, r, i, q, j);
  }

  /** Two slices with only white space around them and none at their ends are the same slice. */
  lemma AroundUnique(s: string, r: string, i: int, q: string, j: int)
    requires SpaceAround(s, r, i) && (r == [] || (!IsSpace(r[0]) && !IsSpace(r[|r| - 1])))
    requires SpaceAround(s, q, j) && (q == [] || (!IsSpace(q[0]) && !IsSpace(q[|q| - 1])))
    ensures r == q
  {
    if q != [] {
      assert s[j] == q[0];
    }
    if r != [] {
      assert s[i] == r[0];
    }
    if r != [] && q != [] {
      assert i == j;
      assert s[i + |r| - 1] == r[|r| - 1] && s[j + |q| - 1] == q[|q| - 1];
      assert |r| == |q|;
    }
  }

  /** A text that neither starts nor ends with white space is its own trimmed form. */
  lemma TrimSpaceUnchanged(s: string)
    requires s != [] && !IsSpace(s[0]) && !IsSpace(s[|s| - 1])
    ensures TrimSpace(s) == s
  {
    assert TrimLeft(s) == s;
  }
}
