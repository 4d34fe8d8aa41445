// Shared vocabulary of the model: optional values, results that carry an
// exception message, and the handful of PHP string built-ins the crawlers
// rely on (trim, rtrim/ltrim with a character list, strtolower,
// str_contains, str_starts_with, explode/implode, mb_substr, strlen and the
// truthiness test behind `empty()`, `?:` and `if ($x)`).

module Common {

  datatype Option<T> = None | Some(value: T)

  /**
   * The outcome of code that may throw. `Err` is an `\Exception`, which a
   * `catch (\Exception $e)` handles; `Fatal` is an `\Error` (a TypeError, a
   * DivisionByZeroError), which passes through such a `catch`. Both carry the
   * message.
   */
  datatype Result<T> = Ok(value: T) | Err(message: string) | Fatal(message: string)

  /** The outcome of code that throws only exceptions, never an `\Error`. */
  type Catchable<T> = r: Result<T> | !r.Fatal? witness Err("")

  // ---------------------------------------------------------------------
  // Truthiness

  /** PHP's `empty($s)` is false exactly for strings other than "" and "0". */
  predicate Truthy(s: string)
  {
    s != "" && s != "0"
  }

  /** `$a ?: $b` on strings. */
  function Elvis(a: string, b: string): (r: string)
    ensures Truthy(a) ==> r == a
    ensures !Truthy(a) ==> r == b
  {
    if Truthy(a) then a else b
  }

  // ---------------------------------------------------------------------
  // Character classes

  /** The characters PHP's `trim()` strips when no list is given. */
  const PhpTrimChars: set<char> := {' ', '\t', '\n', '\r', '\0', '\U{000B}'}

  /** PCRE's `\s` without the `u` flag: space, tab, line feed, vertical tab, form feed, carriage return. */
  const RegexSpaceChars: set<char> := {' ', '\t', '\n', '\U{000B}', '\U{000C}', '\r'}

  predicate IsRegexSpace(c: char)
  {
    c in RegexSpaceChars
  }

  /** PCRE's `\w` without the `u` flag: ASCII letters, digits and underscore. */
  predicate IsWordChar(c: char)
  {
    ('a' <= c <= 'z') || ('A' <= c <= 'Z') || ('0' <= c <= '9') || c == '_'
  }

  function LowerChar(c: char): char
  {
    if 'A' <= c <= 'Z' then (c as int + 32) as char else c
  }

  // ---------------------------------------------------------------------
  // trim, ltrim, rtrim with a character list

  /** `ltrim($s, $chars)`: drops the longest prefix made of `chars`. */
  function TrimLeft(s: string, chars: set<char>): (r: string)
    ensures |r| <= |s| && r == s[|s| - |r|..]
    ensures r == "" || r[0] !in chars
    ensures forall i :: 0 <= i < |s| - |r| ==> s[i] in chars
  {
    if |s| > 0 && s[0] in chars then TrimLeft(s[1..], chars) else s
  }

  /** `rtrim($s, $chars)`: drops the longest suffix made of `chars`. */
  function TrimRight(s: string, chars: set<char>): (r: string)
    ensures |r| <= |s| && r == s[..|r|]
    ensures r == "" || r[|r| - 1] !in chars
    ensures forall i :: |r| <= i < |s| ==> s[i] in chars
  {
    if |s| > 0 && s[|s| - 1] in chars then TrimRight(s[..|s| - 1], chars) else s
  }

  /** PHP's `trim($s)`. */
  function Trim(s: string): (r: string)
  {
    TrimRight(TrimLeft(s, PhpTrimChars), PhpTrimChars)
  }

  /** The result of `trim` is a piece of its input with no strippable character at either end. */
  lemma TrimIsTrimmed(s: string)
    ensures Trim(s) == "" || (Trim(s)[0] !in PhpTrimChars && Trim(s)[|Trim(s)| - 1] !in PhpTrimChars)
    ensures exists k :: 0 <= k <= |s| - |Trim(s)| && OccursAt(s, Trim(s), k)
  {
    var l := TrimLeft(s, PhpTrimChars);
    var r := TrimRight(l, PhpTrimChars);
    var k := |s| - |l|;
    assert s[k..k + |r|] == l[..|r|];
    assert OccursAt(s, r, k);
  }

  /** Every character of a trimmed string comes from the string. */
  lemma TrimKeepsChars(s: string, c: char)
    requires c in Trim(s)
    ensures c in s
  {
    var l := TrimLeft(s, PhpTrimChars);
    assert c in l;
  }

  /** Trimming a trimmed string changes nothing. */
  lemma TrimIdempotent(s: string)
    ensures Trim(Trim(s)) == Trim(s)
  {
    var t := Trim(s);
    TrimIsTrimmed(s);
    assert TrimLeft(t, PhpTrimChars) == t;
    assert TrimRight(t, PhpTrimChars) == t;
  }

  // ---------------------------------------------------------------------
  // Searching

  /** `pat` occurs in `s` at position `i`. */
  predicate OccursAt(s: string, pat: string, i: int)
  {
    0 <= i && i + |pat| <= |s| && s[i..i + |pat|] == pat
  }

  /** `str_contains($s, $pat)`. */
  predicate Contains(s: string, pat: string)
  {
    exists i :: 0 <= i <= |s| - |pat| && OccursAt(s, pat, i)
  }

  /** `str_starts_with($s, $p)`. */
  predicate StartsWith(s: string, p: string)
  {
    |p| <= |s| && s[..|p|] == p
  }

  /** The first position at or after `from` where `pat` occurs. */
  function IndexOf(s: string, pat: string, from: nat): (r: Option<nat>)
    ensures r.Some? ==> from <= r.value && OccursAt(s, pat, r.value)
    ensures r.Some? ==> forall j :: from <= j < r.value ==> !OccursAt(s, pat, j)
    ensures r.None? ==> forall j :: from <= j ==> !OccursAt(s, pat, j)
    decreases |s| - from
  {
    if from + |pat| > |s| then None
    else if s[from..from + |pat|] == pat then Some(from)
    else IndexOf(s, pat, from + 1)
  }

  /** A string contains any piece of itself, and every character of a piece. */
  lemma ContainedCharsOccur(s: string, pat: string, c: char)
    requires Contains(s, pat) && c in pat
    ensures c in s
  {
    var i :| 0 <= i <= |s| - |pat| && OccursAt(s, pat, i);
    var j :| 0 <= j < |pat| && pat[j] == c;
    assert s[i + j] == s[i..i + |pat|][j];
  }

  /** A piece that does not occur in a prefix or a suffix may still straddle them; a piece of the suffix occurs in the whole. */
  lemma ContainsInSuffix(a: string, b: string, pat: string)
    requires Contains(b, pat)
    ensures Contains(a + b, pat)
  {
    var i :| 0 <= i <= |b| - |pat| && OccursAt(b, pat, i);
    assert (a + b)[|a| + i..|a| + i + |pat|] == b[i..i + |pat|];
    assert OccursAt(a + b, pat, |a| + i);
  }

  lemma ContainsInPrefix(a: string, b: string, pat: string)
    requires Contains(a, pat)
    ensures Contains(a + b, pat)
  {
    var i :| 0 <= i <= |a| - |pat| && OccursAt(a, pat, i);
    assert (a + b)[i..i + |pat|] == a[i..i + |pat|];
    assert OccursAt(a + b, pat, i);
  }

  // ---------------------------------------------------------------------
  // Case and length

  /** `strtolower`, which since PHP 8.2 maps ASCII letters only. */
  function Lower(s: string): (r: string)
    ensures |r| == |s|
    ensures forall i :: 0 <= i < |s| ==> r[i] == LowerChar(s[i])
  {
    seq(|s|, i requires 0 <= i < |s| => LowerChar(s[i]))
  }

  /** The number of bytes of `c` in UTF-8. */
  function Utf8Width(c: char): (n: nat)
    ensures 1 <= n <= 4
  {
    if c as int < 0x80 then 1
    else if c as int < 0x800 then 2
    else if c as int < 0x10000 then 3
    else 4
  }

  /** `strlen`: PHP strings are bytes, so a character counts with its UTF-8 width. */
  function ByteLen(s: string): (n: nat)
    ensures |s| <= n <= 4 * |s|
  {
    if s == [] then 0 else Utf8Width(s[0]) + ByteLen(s[1..])
  }

  /** `mb_substr($s, 0, $n)`: the first `n` characters, or all of them. */
  function Prefix(s: string, n: nat): (r: string)
    ensures |r| == if |s| <= n then |s| else n
    ensures r == s[..|r|]
  {
    if |s| <= n then s else s[..n]
  }

  /** Removing every occurrence of one character (`str_replace($c, '', $s)`). */
  function RemoveChar(s: string, c: char): (r: string)
    ensures c !in r
    ensures |r| <= |s|
    ensures forall x :: x in r ==> x in s
  {
    if s == [] then [] else (if s[0] == c then [] else [s[0]]) + RemoveChar(s[1..], c)
  }

  // ---------------------------------------------------------------------
  // explode / implode

  /** `implode($sep, $parts)`. */
  function Join(parts: seq<string>, sep: string): string
  {
    if |parts| == 0 then ""
    else if |parts| == 1 then parts[0]
    else parts[0] + sep + Join(parts[1..], sep)
  }

  /** The first position of `c`, if any. */
  function IndexOfChar(s: string, c: char): (r: Option<nat>)
    ensures r.None? <==> c !in s
    ensures r.Some? ==> r.value < |s| && s[r.value] == c && c !in s[..r.value]
  {
    if s == [] then None
    else if s[0] == c then Some(0)
    else match IndexOfChar(s[1..], c)
      case None => None
      case Some(k) => (assert s[1..][..k] == s[1..k + 1]; Some(k + 1))
  }

  /** `explode($c, $s)`: the pieces between the occurrences of `c`. */
  function Split(s: string, c: char): (parts: seq<string>)
    ensures |parts| >= 1
    ensures forall i :: 0 <= i < |parts| ==> c !in parts[i] && |parts[i]| <= |s|
    ensures c in s ==> forall i :: 0 <= i < |parts| ==> |parts[i]| < |s|
    ensures c !in s ==> parts == [s]
    decreases |s|
  {
    match IndexOfChar(s, c)
    case None => [s]
    case Some(k) => [s[..k]] + Split(s[k + 1..], c)
  }

  /** `implode` undoes `explode` with the same separator. */
  lemma {:induction false} JoinSplit(s: string, c: char)
    ensures Join(Split(s, c), [c]) == s
    decreases |s|
  {
    match IndexOfChar(s, c)
    case None =>
    case Some(k) =>
      var rest := Split(s[k + 1..], c);
      JoinSplit(s[k + 1..], c);
      assert Split(s, c) == [s[..k]] + rest;
      assert Join(Split(s, c), [c]) == s[..k] + [c] + Join(rest, [c]);
      assert s == s[..k] + [c] + s[k + 1..];
  }

  // ---------------------------------------------------------------------
  // Integers as text

  function DigitChar(d: nat): char
    requires d < 10
  {
    "0123456789"[d]
  }

  /** The decimal form PHP gives a non-negative integer. */
  function NatToString(n: nat): (r: string)
    ensures |r| >= 1
    ensures forall i :: 0 <= i < |r| ==> '0' <= r[i] <= '9'
    ensures |r| > 1 ==> r[0] != '0'
  {
    if n < 10 then [DigitChar(n)] else NatToString(n / 10) + [DigitChar(n % 10)]
  }

  /** The decimal form PHP gives an integer (string interpolation, `(string)`). */
  function IntToString(n: int): (r: string)
    ensures |r| >= 1
    ensures n < 0 <==> r[0] == '-'
  {
    if n < 0 then "-" + NatToString(-n) else NatToString(n)
  }

  // ---------------------------------------------------------------------
  // Sequences

  /** `in_array($x, $xs, false)` on strings is membership. */
  predicate Distinct<T(==)>(xs: seq<T>)
  {
    forall i, j :: 0 <= i < j < |xs| ==> xs[i] != xs[j]
  }

  /** `array_unique`: keeps the first occurrence of every value, in order. */
  function Dedup(xs: seq<string>): (r: seq<string>)
    ensures Distinct(r)
    ensures forall x :: x in r <==> x in xs
    ensures |r| <= |xs|
  {
    DedupFrom([], xs)
  }

  function DedupFrom(seen: seq<string>, xs: seq<string>): (r: seq<string>)
    requires Distinct(seen)
    ensures Distinct(r)
    ensures forall x :: x in r <==> x in seen || x in xs
    ensures |r| <= |seen| + |xs|
    ensures |seen| <= |r| && r[..|seen|] == seen
    decreases |xs|
  {
    if xs == [] then seen
    else if xs[0] in seen then DedupFrom(seen, xs[1..])
    else DedupFrom(seen + [xs[0]], xs[1..])
  }

  // ---------------------------------------------------------------------
  // A loop that stops at the first exception

  /** Appending to a queue in two steps is appending both pieces at once. */
  lemma AppendAssoc<T>(a: seq<T>, b: seq<T>, c: seq<T>)
    ensures (a + b) + c == a + (b + c)
  {
  }

  /** A `foreach` that builds one value per element: `f` applied to every element, in order. */
  function MapSeq<A, B>(f: A -> B, xs: seq<A>): (r: seq<B>)
    ensures |r| == |xs| && forall k :: 0 <= k < |xs| ==> r[k] == f(xs[k])
  {
    seq(|xs|, k requires 0 <= k < |xs| => f(xs[k]))
  }

  /** One more iteration of such a loop appends the next element's value. */
  lemma MapSeqStep<A, B>(f: A -> B, xs: seq<A>, i: nat)
    requires i < |xs|
    ensures MapSeq(f, xs[..i + 1]) == MapSeq(f, xs[..i]) + [f(xs[i])]
  {
  }

  /** The same failure at another type: an exception stays an exception and an error an error, with its message. */
  function Rethrow<A, B>(r: Result<A>): (t: Result<B>)
    requires !r.Ok?
    ensures !t.Ok? && t.message == r.message
  {
    if r.Err? then Err(r.message) else Fatal(r.message)
  }

  /** Applies `f` to every element in order; the first failure ends the walk. */
  function MapResult<A, B>(f: A -> Result<B>, xs: seq<A>): (r: Result<seq<B>>)
    decreases |xs|
  {
    if xs == [] then Ok([])
    else if !f(xs[0]).Ok? then Rethrow(f(xs[0]))
    else
      var rest := MapResult(f, xs[1..]);
      if rest.Ok? then Ok([f(xs[0]).value] + rest.value) else rest
  }

  /** A walk succeeds exactly when every element does, with one result per element in order; otherwise it reports the first failure, of the same kind. */
  lemma {:induction false} MapResultPerItem<A, B>(f: A -> Result<B>, xs: seq<A>)
    ensures var r := MapResult(f, xs);
      (r.Ok? <==> forall k :: 0 <= k < |xs| ==> f(xs[k]).Ok?) &&
      (r.Ok? ==>
         |r.value| == |xs| &&
         forall k :: 0 <= k < |xs| ==> f(xs[k]) == Ok(r.value[k])) &&
      (!r.Ok? ==>
         exists k :: 0 <= k < |xs| && !f(xs[k]).Ok? && r == Rethrow(f(xs[k])) &&
           forall h :: 0 <= h < k ==> f(xs[h]).Ok?)
    decreases |xs|
  {
    if xs != [] {
      MapResultPerItem(f, xs[1..]);
      assert forall k :: 0 < k < |xs| ==> xs[k] == xs[1..][k - 1];
      var r := MapResult(f, xs);
      var rest := MapResult(f, xs[1..]);
      if f(xs[0]).Ok? && !rest.Ok? {
        var k :| 0 <= k < |xs[1..]| && !f(xs[1..][k]).Ok? && rest == Rethrow(f(xs[1..][k])) &&
          forall h :: 0 <= h < k ==> f(xs[1..][h]).Ok?;
        assert f(xs[k + 1]) == f(xs[1..][k]);
      }
    }
  }

  /** The results gathered so far followed by those of the rest, or the rest's failure. */
  function Prepend<B>(done: seq<B>, rest: Result<seq<B>>): Result<seq<B>>
  {
    if rest.Ok? then Ok(done + rest.value) else rest
  }

  /** One successful step of the walk moves its result from the rest to the results gathered. */
  lemma MapResultStep<A, B>(f: A -> Result<B>, done: seq<B>, xs: seq<A>)
    requires xs != [] && f(xs[0]).Ok?
    ensures Prepend(done, MapResult(f, xs)) == Prepend(done + [f(xs[0]).value], MapResult(f, xs[1..]))
  {
    var rest := MapResult(f, xs[1..]);
    if rest.Ok? {
      assert done + ([f(xs[0]).value] + rest.value) == (done + [f(xs[0]).value]) + rest.value;
    }
  }

  // ---------------------------------------------------------------------
  // A loop that keeps some results and skips the rest

  /** The results `f` gives, in order, with the skipped elements (None) left out. */
  function FilterMap<A, B>(f: A -> Option<B>, xs: seq<A>): (r: seq<B>)
    decreases |xs|
  {
    if xs == [] then []
    else FilterMap(f, xs[..|xs| - 1]) + (match f(xs[|xs| - 1]) case Some(y) => [y] case None => [])
  }

  /** One more element adds its result, if any, at the end. */
  lemma FilterMapStep<A, B>(f: A -> Option<B>, xs: seq<A>, i: nat)
    requires i < |xs|
    ensures FilterMap(f, xs[..i + 1]) ==
      FilterMap(f, xs[..i]) + (match f(xs[i]) case Some(y) => [y] case None => [])
  {
    assert xs[..i + 1][..i] == xs[..i];
  }

  /**
   * Every kept result comes from an element, no more results than elements,
   * nothing exactly when every element is skipped, and one result per
   * element when none is.
   */
  lemma {:induction false} FilterMapFacts<A, B>(f: A -> Option<B>, xs: seq<A>)
    ensures |FilterMap(f, xs)| <= |xs|
    ensures forall y :: y in FilterMap(f, xs) ==> exists x :: x in xs && f(x) == Some(y)
    ensures FilterMap(f, xs) == [] <==> forall x :: x in xs ==> f(x).None?
    ensures (forall x :: x in xs ==> f(x).Some?) ==> |FilterMap(f, xs)| == |xs|
    decreases |xs|
  {
    if xs != [] {
      var init := xs[..|xs| - 1];
      FilterMapFacts(f, init);
      assert forall x :: x in init ==> x in xs;
      assert xs == init + [xs[|xs| - 1]];
      assert forall x :: x in xs ==> x in init || x == xs[|xs| - 1];
    }
  }

  /**
   * `idx` places the results `r` in `xs`: the j-th result is the answer of
   * element `idx[j]`, the positions strictly increase, and every element
   * with an answer has its position among them.
   */
  ghost predicate Placed<A, B>(f: A -> Option<B>, xs: seq<A>, r: seq<B>, idx: seq<nat>)
  {
    && |idx| == |r|
    && (forall j :: 0 <= j < |idx| ==> idx[j] < |xs| && f(xs[idx[j]]) == Some(r[j]))
    && (forall j, k :: 0 <= j < k < |idx| ==> idx[j] < idx[k])
    && (forall i :: 0 <= i < |xs| && f(xs[i]).Some? ==> i in idx)
  }

  /** The results keep the order of their elements, one per element that has an answer. */
  lemma {:induction false} FilterMapPlaced<A, B>(f: A -> Option<B>, xs: seq<A>) returns (idx: seq<nat>)
    ensures Placed(f, xs, FilterMap(f, xs), idx)
    decreases |xs|
  {
    if xs == [] {
      idx := [];
    } else {
      var n := |xs| - 1;
      var before := FilterMapPlaced(f, xs[..n]);
      PlacedInWhole(f, xs, n, FilterMap(f, xs[..n]), before);
      if f(xs[n]).Some? {
        idx := before + [n];
        PlacedAppend(f, xs, FilterMap(f, xs[..n]), before, f(xs[n]).value);
      } else {
        idx := before;
      }
    }
  }

  /** Positions placed in a prefix keep their answers in the whole sequence. */
  lemma PlacedInWhole<A, B>(f: A -> Option<B>, xs: seq<A>, n: nat, r: seq<B>, idx: seq<nat>)
    requires n < |xs| && Placed(f, xs[..n], r, idx)
    ensures forall j :: 0 <= j < |idx| ==> idx[j] < n && f(xs[idx[j]]) == Some(r[j])
    ensures forall i :: 0 <= i < n && f(xs[i]).Some? ==> i in idx
  {
    forall j | 0 <= j < |idx|
      ensures idx[j] < n && f(xs[idx[j]]) == Some(r[j])
    {
      assert xs[..n][idx[j]] == xs[idx[j]];
    }
    forall i | 0 <= i < n && f(xs[i]).Some?
      ensures i in idx
    {
      assert xs[..n][i] == xs[i];
    }
  }

  /** The last element's answer goes after the earlier ones, at the last position. */
  lemma PlacedAppend<A, B>(f: A -> Option<B>, xs: seq<A>, r: seq<B>, idx: seq<nat>, y: B)
    requires |xs| > 0 && f(xs[|xs| - 1]) == Some(y) && |idx| == |r|
    requires forall j :: 0 <= j < |idx| ==> idx[j] < |xs| - 1 && f(xs[idx[j]]) == Some(r[j])
    requires forall j, k :: 0 <= j < k < |idx| ==> idx[j] < idx[k]
    requires forall i :: 0 <= i < |xs| - 1 && f(xs[i]).Some? ==> i in idx
    ensures Placed(f, xs, r + [y], idx + [|xs| - 1])
  {
    var idx' := idx + [|xs| - 1];
    forall i | 0 <= i < |xs| && f(xs[i]).Some?
      ensures i in idx'
    {
      if i < |xs| - 1 {
        var j :| 0 <= j < |idx| && idx[j] == i;
        assert idx'[j] == i;
      } else {
        assert idx'[|idx|] == i;
      }
    }
  }

  // ---------------------------------------------------------------------
  // Keep the last value found, stop at the first non-empty one

  /**
   * The crawlers' selector loops: `read` answers each selector in turn with
   * nothing (the variable keeps its value) or a value (the variable takes
   * it), and the loop stops at the first value that is not empty.
   */
  function KeepUntilTruthy(read: string -> Option<string>, sels: seq<string>, current: string): string
    decreases |sels|
  {
    if sels == [] then current
    else
      match read(sels[0])
      case None => KeepUntilTruthy(read, sels[1..], current)
      case Some(v) => if Truthy(v) then v else KeepUntilTruthy(read, sels[1..], v)
  }

  /** The outcome is non-empty exactly when some selector's value is, and is then the value of the first such selector. */
  lemma {:induction false} KeepUntilTruthyIsFirst(read: string -> Option<string>, sels: seq<string>, current: string)
    requires !Truthy(current)
    ensures Truthy(KeepUntilTruthy(read, sels, current)) <==>
      exists i :: 0 <= i < |sels| && read(sels[i]).Some? && Truthy(read(sels[i]).value)
    ensures Truthy(KeepUntilTruthy(read, sels, current)) ==>
      exists i :: 0 <= i < |sels| && read(sels[i]) == Some(KeepUntilTruthy(read, sels, current)) &&
        forall j :: 0 <= j < i ==> read(sels[j]).None? || !Truthy(read(sels[j]).value)
    decreases |sels|
  {
    if sels != [] {
      var next := match read(sels[0]) case None => current case Some(v) => v;
      if read(sels[0]).Some? && Truthy(read(sels[0]).value) {
        assert read(sels[0]) == Some(KeepUntilTruthy(read, sels, current));
      } else {
        var rest := sels[1..];
        KeepUntilTruthyIsFirst(read, rest, next);
        assert forall i :: 0 <= i < |rest| ==> rest[i] == sels[i + 1];
        if Truthy(KeepUntilTruthy(read, sels, current)) {
          var i :| 0 <= i < |rest| && read(rest[i]) == Some(KeepUntilTruthy(read, sels, current)) &&
            forall j :: 0 <= j < i ==> read(rest[j]).None? || !Truthy(read(rest[j]).value);
          assert read(sels[i + 1]) == Some(KeepUntilTruthy(read, sels, current));
          forall j | 0 <= j < i + 1
            ensures read(sels[j]).None? || !Truthy(read(sels[j]).value)
          {
            if j > 0 {
              assert sels[j] == rest[j - 1];
            }
          }
        }
      }
    }
  }

  /** One more selector, as a loop body sees it. */
  lemma KeepUntilTruthyStep(read: string -> Option<string>, sels: seq<string>, i: nat, current: string)
    requires i < |sels|
    ensures KeepUntilTruthy(read, sels[i..], current) ==
      match read(sels[i])
      case None => KeepUntilTruthy(read, sels[i + 1..], current)
      case Some(v) => if Truthy(v) then v else KeepUntilTruthy(read, sels[i + 1..], v)
  {
    assert sels[i..][0] == sels[i] && sels[i..][1..] == sels[i + 1..];
  }
}
