/** Shared value types and the .NET string helpers the identity code relies on. */
module Common {

  /** A point in time (a DateTimeOffset). Reads of the clock are parameters of the model. */
  type Instant = int

  datatype Option<T> = None | Some(value: T)

  /** The outcome of a call that may throw: the value it returned, or the message of its exception. */
  datatype Outcome<T> = Returned(value: T) | Threw(message: string)

  /** The framework's IdentityResult: whether the operation succeeded and the error descriptions. */
  datatype IdentityResult = IdentityResult(succeeded: bool, errors: seq<string>)

  /** Total number of characters in a list of strings. */
  function TotalLength(parts: seq<string>): nat
  {
    if parts == [] then 0 else |parts[0]| + TotalLength(parts[1..])
  }

  /** string.Join(sep, parts). */
  function Join(parts: seq<string>, sep: string): (r: string)
    ensures parts != [] ==> parts[0] <= r
    ensures parts != [] ==> |r| == TotalLength(parts) + (|parts| - 1) * |sep|
    ensures parts == [] ==> r == ""
  {
    if |parts| == 0 then ""
    else if |parts| == 1 then parts[0]
    else parts[0] + sep + Join(parts[1..], sep)
  }

  /** Joining one more part appends the separator and the part. */
  lemma {:induction false} JoinSnoc(parts: seq<string>, p: string, sep: string)
    requires parts != []
    ensures Join(parts + [p], sep) == Join(parts, sep) + sep + p
    decreases |parts|
  {
    if |parts| > 1 {
      assert (parts + [p])[1..] == parts[1..] + [p];
      JoinSnoc(parts[1..], p, sep);
    }
  }

  /** char.IsWhiteSpace: the Unicode separators and the control characters U+0009..U+000D, U+0085. */
  predicate IsWhiteSpace(c: char)
  {
    || c == ' ' || ('\t' <= c <= '\r') || c == '\U{0085}' || c == '\U{00A0}' || c == '\U{1680}'
    || ('\U{2000}' <= c <= '\U{200A}') || c == '\U{2028}' || c == '\U{2029}' || c == '\U{202F}'
    || c == '\U{205F}' || c == '\U{3000}'
  }

  /** string.IsNullOrWhiteSpace for a non-null string. */
  predicate IsWhiteSpaceOnly(s: string)
  {
    forall i :: 0 <= i < |s| ==> IsWhiteSpace(s[i])
  }

  /** string.IsNullOrEmpty. */
  predicate IsNullOrEmpty(s: Option<string>)
  {
    s.None? || s.value == ""
  }

  /** The index of the first character at or after i that is not white space (|s| if none). */
  function SkipLeading(s: string, i: nat): (n: nat)
    requires i <= |s|
    ensures i <= n <= |s|
    ensures forall k :: i <= k < n ==> IsWhiteSpace(s[k])
    ensures n < |s| ==> !IsWhiteSpace(s[n])
    decreases |s| - i
  {
    if i < |s| && IsWhiteSpace(s[i]) then SkipLeading(s, i + 1) else i
  }

  /** The end of s[lo..j] once its trailing white space is dropped. */
  function SkipTrailing(s: string, lo: nat, j: nat): (m: nat)
    requires lo <= j <= |s|
    ensures lo <= m <= j
    ensures forall k :: m <= k < j ==> IsWhiteSpace(s[k])
    ensures lo < m ==> !IsWhiteSpace(s[m - 1])
    decreases j - lo
  {
    if lo < j && IsWhiteSpace(s[j - 1]) then SkipTrailing(s, lo, j - 1) else j
  }

  /** string.Trim(): the result is the slice s[i..j] left once the white space at both ends is removed. */
  function Trim(s: string): (r: string)
    ensures r == [] || (!IsWhiteSpace(r[0]) && !IsWhiteSpace(r[|r| - 1]))
    ensures exists i, j :: 0 <= i <= j <= |s| && r == s[i..j]
                           && (forall k :: 0 <= k < i ==> IsWhiteSpace(s[k]))
                           && (forall k :: j <= k < |s| ==> IsWhiteSpace(s[k]))
  {
    var i := SkipLeading(s, 0);
    var j := SkipTrailing(s, i, |s|);
    s[i..j]
  }

  /** Trim yields "" exactly on the strings made only of white space. */
  lemma TrimEmptyIffWhiteSpaceOnly(s: string)
    ensures Trim(s) == "" <==> IsWhiteSpaceOnly(s)
  {
    var i := SkipLeading(s, 0);
    var j := SkipTrailing(s, i, |s|);
    assert Trim(s) == s[i..j];
    if IsWhiteSpaceOnly(s) {
      assert i == |s|;
    }
  }

  /** Trimming twice is trimming once. */
  lemma TrimIdempotent(s: string)
    ensures Trim(Trim(s)) == Trim(s)
  {
    var r := Trim(s);
    assert SkipLeading(r, 0) == 0;
    assert SkipTrailing(r, 0, |r|) == |r|;
    assert r[0..|r|] == r;
  }

  /** LINQ Where: keeps, in order, the elements that satisfy p. */
  function Filter<T(!new)>(s: seq<T>, p: T -> bool): (r: seq<T>)
    ensures forall x :: x in r <==> x in s && p(x)
    ensures |r| <= |s|
  {
    if s == [] then []
    else
      var rest := Filter(s[1..], p);
      assert forall x :: x in s <==> x == s[0] || x in s[1..];
      if p(s[0]) then [s[0]] + rest else rest
  }

  /** LINQ Count(p). */
  function Count<T>(s: seq<T>, p: T -> bool): nat
  {
    if s == [] then 0 else (if p(s[0]) then 1 else 0) + Count(s[1..], p)
  }

  /** Counting the matches is the length of the filtered list. */
  lemma {:induction false} CountIsFilterLength<T(!new)>(s: seq<T>, p: T -> bool)
    ensures Count(s, p) == |Filter(s, p)|
  {
    if s != [] {
      CountIsFilterLength(s[1..], p);
    }
  }

  /** A non-empty list is its head followed by its tail, as a multiset too. */
  lemma MultisetOfCons<T>(s: seq<T>)
    requires s != []
    ensures multiset(s) == multiset{s[0]} + multiset(s[1..])
  {
    assert s == [s[0]] + s[1..];
  }

  /** Filtering by a predicate and by its negation splits the list: together they hold every element once. */
  lemma {:induction false} FilterPartition<T(!new)>(s: seq<T>, p: T -> bool, q: T -> bool)
    requires forall x :: q(x) == !p(x)
    ensures multiset(Filter(s, p)) + multiset(Filter(s, q)) == multiset(s)
  {
    if s != [] {
      var a := Filter(s[1..], p);
      var b := Filter(s[1..], q);
      FilterPartition(s[1..], p, q);
      MultisetOfCons(s);
      assert q(s[0]) == !p(s[0]);
      if p(s[0]) {
        assert Filter(s, p) == [s[0]] + a;
        assert multiset([s[0]] + a) == multiset{s[0]} + multiset(a);
      } else {
        assert Filter(s, q) == [s[0]] + b;
        assert multiset([s[0]] + b) == multiset{s[0]} + multiset(b);
      }
    }
  }
}
