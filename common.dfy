/** Values and helpers shared by every module of the gallery model: optional and
    failing results, order-preserving filters, and the string operations that the
    TypeScript sources use (`split`, `join`, `pop`, `includes`, `startsWith`,
    ASCII `toLowerCase`, number-to-decimal printing). */
module Common {

  /** `undefined`/`null` versus a present value. */
  datatype Option<+T> = None | Some(value: T)

  /** The outcome of an operation that may reject with an error message. */
  datatype Result<+T> = Ok(value: T) | Err(error: string)

  // ---------------------------------------------------------------------------
  // Sequences
  // ---------------------------------------------------------------------------

  /** `Array.prototype.filter`: the elements satisfying `p`, in their order. */
  function Filter<T>(s: seq<T>, p: T -> bool): (r: seq<T>)
    ensures |r| <= |s|
    ensures forall i :: 0 <= i < |r| ==> r[i] in s && p(r[i])
    ensures forall i :: 0 <= i < |s| && p(s[i]) ==> s[i] in r
  {
    if s == [] then [] else (if p(s[0]) then [s[0]] else []) + Filter(s[1..], p)
  }

  /** `s` with `f` applied, in place, to the elements `sel` picks. */
  function MapWhere<T>(s: seq<T>, sel: T -> bool, f: T -> T): (r: seq<T>)
    ensures |r| == |s|
    ensures forall i :: 0 <= i < |s| ==> r[i] == if sel(s[i]) then f(s[i]) else s[i]
  {
    if s == [] then [] else [if sel(s[0]) then f(s[0]) else s[0]] + MapWhere(s[1..], sel, f)
  }

  /** A selector that picks nothing leaves the sequence as it is. */
  lemma MapWhereNone<T>(s: seq<T>, sel: T -> bool, f: T -> T)
    requires forall i :: 0 <= i < |s| ==> !sel(s[i])
    ensures MapWhere(s, sel, f) == s
  {
  }

  /** The elements of a sequence are those of a prefix and of the rest. */
  lemma SplitMultiset<T>(s: seq<T>, n: nat)
    requires n <= |s|
    ensures multiset(s) == multiset(s[..n]) + multiset(s[n..])
  {
    assert s == s[..n] + s[n..];
  }

  /** A prefix one element longer. */
  lemma TakeOneMore<T>(s: seq<T>, i: nat)
    requires i < |s|
    ensures s[..i + 1] == s[..i] + [s[i]]
  {
  }

  /** Appending one element after a concatenation. */
  lemma AppendOneAssoc<T>(a: seq<T>, b: seq<T>, x: T)
    ensures a + b + [x] == a + (b + [x])
  {
  }

  lemma {:induction false} FilterAppend<T>(a: seq<T>, b: seq<T>, p: T -> bool)
    ensures Filter(a + b, p) == Filter(a, p) + Filter(b, p)
  {
    if a == [] {
      assert a + b == b;
    } else {
      assert (a + b)[1..] == a[1..] + b;
      FilterAppend(a[1..], b, p);
    }
  }

  /** Two filters in a row are one filter by the conjunction. */
  lemma {:induction false} FilterFilter<T>(s: seq<T>, p: T -> bool, q: T -> bool, pq: T -> bool)
    requires forall x :: pq(x) == (p(x) && q(x))
    ensures Filter(Filter(s, p), q) == Filter(s, pq)
  {
    if s != [] {
      FilterFilter(s[1..], p, q, pq);
      var tail := Filter(s[1..], p);
      if p(s[0]) {
        assert Filter(s, p) == [s[0]] + tail;
        assert ([s[0]] + tail)[1..] == tail;
      } else {
        assert Filter(s, p) == tail;
      }
    }
  }

  /** Filters with the same verdict on every element agree. */
  lemma {:induction false} SameFilter<T>(s: seq<T>, p: T -> bool, q: T -> bool)
    requires forall i :: 0 <= i < |s| ==> p(s[i]) == q(s[i])
    ensures Filter(s, p) == Filter(s, q)
  {
    if s != [] {
      SameFilter(s[1..], p, q);
    }
  }

  /** Filtering with a predicate that holds everywhere keeps the whole sequence. */
  lemma {:induction false} FilterAll<T>(s: seq<T>, p: T -> bool)
    requires forall i :: 0 <= i < |s| ==> p(s[i])
    ensures Filter(s, p) == s
  {
    if s != [] {
      FilterAll(s[1..], p);
    }
  }

  /** Filtering with a predicate that holds nowhere gives the empty sequence. */
  lemma {:induction false} FilterNone<T>(s: seq<T>, p: T -> bool)
    requires forall i :: 0 <= i < |s| ==> !p(s[i])
    ensures Filter(s, p) == []
  {
    if s != [] {
      FilterNone(s[1..], p);
    }
  }

  /** Filtering with a predicate that holds at one position only gives that element. */
  lemma {:induction false} FilterOnly<T>(s: seq<T>, p: T -> bool, k: nat)
    requires k < |s| && p(s[k])
    requires forall j :: 0 <= j < |s| && j != k ==> !p(s[j])
    ensures Filter(s, p) == [s[k]]
  {
    var tail := s[1..];
    if k == 0 {
      FilterNone(tail, p);
    } else {
      assert !p(s[0]);
      assert forall j :: 0 <= j < |tail| && j != k - 1 ==> !p(tail[j]) by {
        forall j | 0 <= j < |tail| && j != k - 1 ensures !p(tail[j]) {
          assert tail[j] == s[j + 1];
        }
      }
      FilterOnly(tail, p, k - 1);
    }
  }

  /** `r` is `s` with some elements left out and the others in their order. */
  predicate IsSubsequence<T(==)>(r: seq<T>, s: seq<T>)
    decreases |s|
  {
    r == [] || (s != [] && ((r[0] == s[0] && IsSubsequence(r[1..], s[1..])) || IsSubsequence(r, s[1..])))
  }

  /** A filter keeps the order of what it keeps. */
  lemma {:induction false} FilterIsSubsequence<T>(s: seq<T>, p: T -> bool)
    ensures IsSubsequence(Filter(s, p), s)
  {
    if s != [] {
      FilterIsSubsequence(s[1..], p);
      var r := Filter(s, p);
      if p(s[0]) {
        assert r == [s[0]] + Filter(s[1..], p);
        assert r[1..] == Filter(s[1..], p);
      } else {
        assert r == Filter(s[1..], p);
      }
    }
  }

  /** `.single()` after a filtering select: the row when exactly one row matches;
      with none or with several the call reports an error and yields no row. */
  function Single<T>(s: seq<T>, p: T -> bool): (r: Option<T>)
    ensures r.Some? <==> |Filter(s, p)| == 1
    ensures r.Some? ==> r.value in s && p(r.value)
  {
    var matching := Filter(s, p);
    if |matching| == 1 then Some(matching[0]) else None
  }

  /** The number of elements satisfying `p`. */
  function Count<T>(s: seq<T>, p: T -> bool): (n: nat)
    ensures n <= |s|
  {
    |Filter(s, p)|
  }

  /** Elements satisfying `p` and elements not satisfying it make up the whole. */
  lemma {:induction false} CountSplit<T>(s: seq<T>, p: T -> bool, q: T -> bool)
    requires forall x :: q(x) == !p(x)
    ensures Count(s, p) + Count(s, q) == |s|
  {
    if s != [] {
      CountSplit(s[1..], p, q);
    }
  }

  /** The first element satisfying `p` (`Array.prototype.find`). */
  function Find<T>(s: seq<T>, p: T -> bool): (r: Option<T>)
    ensures r.None? <==> forall i :: 0 <= i < |s| ==> !p(s[i])
    ensures r.Some? ==> exists k :: 0 <= k < |s| && s[k] == r.value && p(s[k]) &&
                                    forall j :: 0 <= j < k ==> !p(s[j])
  {
    if s == [] then None
    else if p(s[0]) then Some(s[0])
    else
      var r := Find(s[1..], p);
      assert r.Some? ==> exists k :: 0 <= k < |s| - 1 && s[1..][k] == r.value && p(s[1..][k]) &&
                                     forall j :: 0 <= j < k ==> !p(s[1..][j]);
      r
  }

  /** `{ ...stored, ...sent }` for one field: a sent value replaces the stored one. */
  function Pick<T>(sent: Option<T>, stored: T): T {
    if sent.Some? then sent.value else stored
  }

  /** The same for a nullable field. */
  function PickSome<T>(sent: Option<T>, stored: Option<T>): Option<T> {
    if sent.Some? then sent else stored
  }

  /** The first element with the largest key (a descending `order` with `limit(1)`). */
  function ArgMax<T>(s: seq<T>, key: T -> int): (r: Option<T>)
    ensures r.None? <==> |s| == 0
    ensures r.Some? ==> r.value in s && forall i :: 0 <= i < |s| ==> key(s[i]) <= key(r.value)
  {
    if |s| == 0 then None
    else
      var rest := ArgMax(s[1..], key);
      assert forall i :: 1 <= i < |s| ==> s[i] == s[1..][i - 1];
      if rest.None? || key(rest.value) <= key(s[0]) then Some(s[0]) else rest
  }

  /** The first index of `x` (`indexOf`, known to succeed). */
  function IndexOf<T(==)>(s: seq<T>, x: T): (i: nat)
    requires x in s
    ensures i < |s| && s[i] == x && x !in s[..i]
  {
    if s[0] == x then 0 else
      var j := IndexOf(s[1..], x);
      assert s[..j + 1] == [s[0]] + s[1..][..j];
      j + 1
  }

  /** No element occurs twice. */
  predicate Distinct<T(==)>(s: seq<T>) {
    forall x | x in s :: multiset(s)[x] <= 1
  }

  /** In a sequence without repetitions, different positions hold different
      elements. */
  lemma DistinctIndices<T>(s: seq<T>)
    requires Distinct(s)
    ensures forall i, j :: 0 <= i < j < |s| ==> s[i] != s[j]
  {
    forall i, j | 0 <= i < j < |s| ensures s[i] != s[j] {
      assert s == s[..j] + s[j..];
      assert s[j] in s[j..] && s[i] in s[..j];
      assert multiset(s)[s[j]] == multiset(s[..j])[s[j]] + multiset(s[j..])[s[j]];
      assert s[j] !in multiset(s[..j]);
    }
  }

  /** `findIndex(part => part === x)`: the first position of `x`, or -1. */
  function FindIndex<T(==)>(s: seq<T>, x: T): (r: int)
    ensures -1 <= r < |s|
    ensures r == -1 <==> x !in s
    ensures r >= 0 ==> s[r] == x && x !in s[..r]
  {
    if x in s then IndexOf(s, x) else -1
  }

  function Last<T>(s: seq<T>): T
    requires |s| > 0
  {
    s[|s| - 1]
  }

  /** `s.substr(0, n)` / `slice(0, n)` with the index clamped to the string. */
  function Take<T>(s: seq<T>, n: int): (r: seq<T>)
    ensures |r| == if n <= 0 then 0 else if n < |s| then n else |s|
    ensures r <= s
  {
    if n <= 0 then [] else if n < |s| then s[..n] else s
  }

  /** The sequence without the element at `index`; out-of-range indices drop nothing
      (`filter((_, i) => i !== index)`). */
  function RemoveAt<T>(s: seq<T>, index: int): (r: seq<T>)
    ensures 0 <= index < |s| ==> r == s[..index] + s[index + 1..]
    ensures !(0 <= index < |s|) ==> r == s
  {
    if 0 <= index < |s| then s[..index] + s[index + 1..] else s
  }

  // ---------------------------------------------------------------------------
  // Strings
  // ---------------------------------------------------------------------------

  predicate IsPrefix<T(==)>(p: seq<T>, s: seq<T>) {
    |p| <= |s| && s[..|p|] == p
  }

  predicate IsSuffix<T(==)>(p: seq<T>, s: seq<T>) {
    |p| <= |s| && s[|s| - |p|..] == p
  }

  lemma PrefixTrans<T>(a: seq<T>, b: seq<T>, c: seq<T>)
    requires IsPrefix(a, b) && IsPrefix(b, c)
    ensures IsPrefix(a, c)
  {
    assert c[..|a|] == c[..|b|][..|a|];
  }

  lemma PrefixAppend<T>(x: seq<T>, p: seq<T>, s: seq<T>)
    requires IsPrefix(p, s)
    ensures IsPrefix(x + p, x + s)
  {
    assert (x + s)[..|x + p|] == x + s[..|p|];
  }

  lemma SuffixAppend<T>(x: seq<T>, p: seq<T>, s: seq<T>)
    requires IsSuffix(p, s)
    ensures IsSuffix(p, x + s)
  {
    assert (x + s)[|x + s| - |p|..] == s[|s| - |p|..];
  }

  /** `s.includes(sub)`: `sub` occurs in `s` as a contiguous part. */
  predicate Contains<T(==)>(s: seq<T>, sub: seq<T>)
    decreases |s|
  {
    IsPrefix(sub, s) || (|s| > 0 && Contains(s[1..], sub))
  }

  lemma {:induction false} ContainsAt<T>(s: seq<T>, sub: seq<T>, i: nat)
    requires i + |sub| <= |s| && s[i..i + |sub|] == sub
    ensures Contains(s, sub)
    decreases i
  {
    if i > 0 {
      assert s[1..][i - 1..i - 1 + |sub|] == s[i..i + |sub|];
      ContainsAt(s[1..], sub, i - 1);
    }
  }

  lemma {:induction false} ContainsPrefixOf<T>(a: seq<T>, b: seq<T>, sub: seq<T>)
    requires Contains(a, sub)
    ensures Contains(a + b, sub)
    decreases |a|
  {
    if IsPrefix(sub, a) {
      assert (a + b)[..|sub|] == a[..|sub|];
    } else {
      assert (a + b)[1..] == a[1..] + b;
      ContainsPrefixOf(a[1..], b, sub);
    }
  }

  lemma {:induction false} ContainsEmpty<T>(s: seq<T>)
    ensures Contains(s, [])
  {
    assert IsPrefix([], s);
  }

  /** `String.prototype.toLowerCase` restricted to ASCII letters. */
  function LowerChar(c: char): (d: char)
    ensures !('A' <= d <= 'Z')
    ensures !('A' <= c <= 'Z') ==> d == c
  {
    if 'A' <= c <= 'Z' then (c as int + 32) as char else c
  }

  function Lower(s: string): (r: string)
    ensures |r| == |s| && forall i :: 0 <= i < |s| ==> r[i] == LowerChar(s[i])
  {
    seq(|s|, i requires 0 <= i < |s| => LowerChar(s[i]))
  }

  lemma LowerIdempotent(s: string)
    ensures Lower(Lower(s)) == Lower(s)
  {
  }

  /** The characters matched by `\s` in a JavaScript regular expression:
      WhiteSpace and LineTerminator of the ECMAScript grammar. */
  predicate IsJsWhitespace(c: char) {
    c == ' ' || c == '\t' || c == '\n' || c == '\r' || c == '\U{000B}' || c == '\U{000C}' ||
    c == '\U{00A0}' || c == '\U{1680}' || ('\U{2000}' <= c <= '\U{200A}') ||
    c == '\U{2028}' || c == '\U{2029}' || c == '\U{202F}' || c == '\U{205F}' ||
    c == '\U{3000}' || c == '\U{FEFF}'
  }

  predicate IsAsciiDigit(c: char) { '0' <= c <= '9' }

  predicate IsAsciiAlnum(c: char) {
    ('a' <= c <= 'z') || ('A' <= c <= 'Z') || IsAsciiDigit(c)
  }

  /** The UTF-16 code units JavaScript counts for a character: two for one outside
      the Basic Multilingual Plane, one otherwise. */
  function Utf16Units(c: char): nat {
    if c as int > 0xFFFF then 2 else 1
  }

  /** JavaScript's `s.length`: the number of UTF-16 code units. */
  function Utf16Length(s: string): (n: nat)
    ensures |s| <= n <= 2 * |s|
  {
    if s == [] then 0 else Utf16Units(s[0]) + Utf16Length(s[1..])
  }

  /** Text whose every character lies in the Basic Multilingual Plane. */
  predicate InBmp(s: string) {
    forall i :: 0 <= i < |s| ==> s[i] as int <= 0xFFFF
  }

  /** On such text JavaScript's length is the number of characters. */
  lemma {:induction false} Utf16LengthBmp(s: string)
    requires InBmp(s)
    ensures Utf16Length(s) == |s|
  {
    if s != [] {
      assert InBmp(s[1..]) by {
        forall i | 0 <= i < |s[1..]| ensures s[1..][i] as int <= 0xFFFF {
          assert s[1..][i] == s[i + 1];
        }
      }
      Utf16LengthBmp(s[1..]);
    }
  }

  /** The length of a concatenation is the sum of the lengths. */
  lemma {:induction false} Utf16LengthAppend(a: string, b: string)
    ensures Utf16Length(a + b) == Utf16Length(a) + Utf16Length(b)
  {
    if a == [] {
      assert a + b == b;
    } else {
      assert (a + b)[1..] == a[1..] + b;
      Utf16LengthAppend(a[1..], b);
    }
  }

  function DigitChar(d: nat): (c: char)
    requires d < 10
    ensures IsAsciiDigit(c)
    ensures c as int == '0' as int + d
  {
    ('0' as int + d) as char
  }

  /** Decimal printing of a non-negative integer (template literal `${n}`). */
  function NatToString(n: nat): (s: string)
    ensures |s| >= 1
    ensures forall i :: 0 <= i < |s| ==> IsAsciiDigit(s[i])
  {
    if n < 10 then [DigitChar(n)] else NatToString(n / 10) + [DigitChar(n % 10)]
  }

  /** Different numbers print differently. */
  lemma {:induction false} NatToStringInjective(m: nat, n: nat)
    requires NatToString(m) == NatToString(n)
    ensures m == n
    decreases m
  {
    var s := NatToString(m);
    if m >= 10 && n >= 10 {
      assert s == NatToString(m / 10) + [DigitChar(m % 10)];
      assert s == NatToString(n / 10) + [DigitChar(n % 10)];
      assert s[|s| - 1] == DigitChar(m % 10) && s[|s| - 1] == DigitChar(n % 10);
      assert NatToString(m / 10) == s[..|s| - 1] == NatToString(n / 10);
      NatToStringInjective(m / 10, n / 10);
    } else if m < 10 && n < 10 {
      assert s[0] == DigitChar(m) && s[0] == DigitChar(n);
    }
  }

  /** `s.split(sep)` for a one-character separator: never empty, no piece holds `sep`. */
  function Split(s: string, sep: char): (parts: seq<string>)
    ensures |parts| >= 1
    ensures forall i :: 0 <= i < |parts| ==> sep !in parts[i]
  {
    if s == [] then [""]
    else if s[0] == sep then [""] + Split(s[1..], sep)
    else
      var rest := Split(s[1..], sep);
      [[s[0]] + rest[0]] + rest[1..]
  }

  /** `s.split(sep).pop()`: the text after the last `sep`, or all of `s` when it has none. */
  function LastPiece(s: string, sep: char): (r: string)
    ensures sep !in r
  {
    Last(Split(s, sep))
  }

  /** `parts.join(sep)`. */
  function Join(parts: seq<string>, sep: char): string
  {
    if |parts| == 0 then ""
    else if |parts| == 1 then parts[0]
    else parts[0] + [sep] + Join(parts[1..], sep)
  }

  /** Joining the pieces of a split gives the original string back. */
  lemma {:induction false} JoinSplit(s: string, sep: char)
    ensures Join(Split(s, sep), sep) == s
  {
    if s != [] {
      JoinSplit(s[1..], sep);
      var rest := Split(s[1..], sep);
      if s[0] != sep && |rest| > 1 {
        assert ([[s[0]] + rest[0]] + rest[1..])[1..] == rest[1..];
      }
    }
  }

  /** A string without the separator is a single piece. */
  lemma {:induction false} SplitNoSep(s: string, sep: char)
    requires sep !in s
    ensures Split(s, sep) == [s]
  {
    if s != [] {
      assert sep !in s[1..];
      SplitNoSep(s[1..], sep);
      assert s[0] != sep;
      assert [s[0]] + s[1..] == s;
    }
  }

  /** Splitting at one occurrence of the separator splits the two sides separately. */
  lemma {:induction false} SplitAppend(a: string, sep: char, b: string)
    ensures Split(a + [sep] + b, sep) == Split(a, sep) + Split(b, sep)
  {
    var s := a + [sep] + b;
    if a == [] {
      assert s[1..] == b;
    } else {
      assert s[1..] == a[1..] + [sep] + b;
      SplitAppend(a[1..], sep, b);
    }
  }

  /** Splitting a joined sequence of separator-free pieces gives the pieces back. */
  lemma {:induction false} SplitJoin(parts: seq<string>, sep: char)
    requires |parts| >= 1
    requires forall i :: 0 <= i < |parts| ==> sep !in parts[i]
    ensures Split(Join(parts, sep), sep) == parts
    decreases |parts|
  {
    if |parts| == 1 {
      SplitNoSep(parts[0], sep);
    } else {
      SplitJoin(parts[1..], sep);
      SplitAppend(parts[0], sep, Join(parts[1..], sep));
      SplitNoSep(parts[0], sep);
      assert [parts[0]] + parts[1..] == parts;
    }
  }

  /** The text after the last `sep` of a string whose tail is `sep` + `b` is `b`. */
  lemma LastPieceAfter(a: string, sep: char, b: string)
    requires sep !in b
    ensures Last(Split(a + [sep] + b, sep)) == b
  {
    SplitAppend(a, sep, b);
    SplitNoSep(b, sep);
  }

  /** A separator-free head is split off as the first piece. */
  lemma SplitCons(a: string, sep: char, rest: string)
    requires sep !in a
    ensures Split(a + [sep] + rest, sep) == [a] + Split(rest, sep)
  {
    SplitAppend(a, sep, rest);
    SplitNoSep(a, sep);
  }

  /** A separator-free head starts the first piece, whatever follows it. */
  lemma {:induction false} FirstPieceExtends(a: string, b: string, sep: char)
    requires sep !in a
    ensures IsPrefix(a, Split(a + b, sep)[0])
  {
    if a != [] {
      assert (a + b)[0] == a[0] && (a + b)[1..] == a[1..] + b;
      FirstPieceExtends(a[1..], b, sep);
    }
  }

  /** The text before the first `sep` of `a` + `sep` + ... is `a`. */
  lemma FirstPieceBefore(a: string, sep: char, b: string)
    requires sep !in a
    ensures Split(a + [sep] + b, sep)[0] == a
  {
    SplitAppend(a, sep, b);
    SplitNoSep(a, sep);
  }

  // ---------------------------------------------------------------------------
  // Keys, URLs and batches
  // ---------------------------------------------------------------------------

  /** Decimal digits hold neither of the separators the upload keys use. */
  lemma NoUnderscoreInDigits(n: nat)
    ensures '_' !in NatToString(n) && '.' !in NatToString(n)
  {
    var s := NatToString(n);
    forall i | 0 <= i < |s| ensures s[i] != '_' && s[i] != '.' {
      assert IsAsciiDigit(s[i]);
    }
  }

  /** The digits before the first dot of `n.ext`, whatever follows. */
  lemma IndexPiece(n: nat, ext: string)
    ensures Split(Split(NatToString(n) + "." + ext, '_')[0], '.')[0] == NatToString(n)
  {
    var digits := NatToString(n);
    NoUnderscoreInDigits(n);
    assert '_' !in digits + ".";
    FirstPieceExtends(digits + ".", ext, '_');
    var piece := Split(digits + "." + ext, '_')[0];
    var rest := piece[|digits| + 1..];
    assert piece == digits + ['.'] + rest;
    FirstPieceBefore(digits, '.', rest);
  }

  function Successes<T>(results: seq<Result<T>>): (r: seq<T>)
    ensures |r| <= |results|
  {
    if results == [] then []
    else Successes(results[..|results| - 1]) + (if Last(results).Ok? then [Last(results).value] else [])
  }

  /** The first failure of a batch, or success with every value. */
  function FirstFailure<T>(results: seq<Result<T>>): (r: Result<seq<T>>)
    ensures r.Ok? <==> forall i :: 0 <= i < |results| ==> results[i].Ok?
  {
    if results == [] then Ok([])
    else if results[0].Err? then Err(results[0].error)
    else
      var rest := FirstFailure(results[1..]);
      assert forall i :: 1 <= i < |results| ==> results[i] == results[1..][i - 1];
      if rest.Err? then rest else Ok([results[0].value] + rest.value)
  }

  /** The last path segment of a URL (`split('/').pop()`). */
  function LastSegment(url: string): (key: string)
    ensures '/' !in key
  {
    LastPiece(url, '/')
  }
}
