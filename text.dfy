/**
 * The three JavaScript string operations the catalog loader is built from:
 * `String.prototype.trim`, `String.prototype.split` with a one-character
 * separator, and `Number(x) || 0` restricted to decimal integers.
 */
module Text {

  /** ECMAScript WhiteSpace and LineTerminator code points, the set `trim` removes. */
  predicate IsWhitespace(c: char) {
    || c == '\t' || c == '\n' || c == '\U{000B}' || c == '\U{000C}' || c == '\r'
    || c == ' ' || c == '\U{00A0}' || c == '\U{1680}'
    || ('\U{2000}' <= c <= '\U{200A}')
    || c == '\U{2028}' || c == '\U{2029}' || c == '\U{202F}' || c == '\U{205F}'
    || c == '\U{3000}' || c == '\U{FEFF}'
  }

  predicate AllWhitespace(s: string) {
    forall k :: 0 <= k < |s| ==> IsWhitespace(s[k])
  }

  /** A string that `trim` leaves alone: empty, or non-blank at both ends. */
  predicate IsTrimmed(s: string) {
    s == [] || (!IsWhitespace(s[0]) && !IsWhitespace(s[|s| - 1]))
  }

  lemma BlankCons(c: char, s: string)
    requires IsWhitespace(c) && AllWhitespace(s)
    ensures AllWhitespace([c] + s)
  {
    forall k | 0 < k < |s| + 1 ensures IsWhitespace(([c] + s)[k]) {
      assert ([c] + s)[k] == s[k - 1];
    }
  }

  lemma BlankSnoc(s: string, c: char)
    requires AllWhitespace(s) && IsWhitespace(c)
    ensures AllWhitespace(s + [c])
  {
    forall k | 0 <= k < |s| ensures IsWhitespace((s + [c])[k]) {
      assert (s + [c])[k] == s[k];
    }
  }

  /** `s` without its leading whitespace: the longest suffix that does not start with whitespace. */
  function TrimStart(s: string): (r: string)
    ensures |r| <= |s| && r == s[|s| - |r|..]
    ensures AllWhitespace(s[..|s| - |r|])
    ensures r == [] || !IsWhitespace(r[0])
    decreases |s|
  {
    if |s| > 0 && IsWhitespace(s[0]) then
      var r := TrimStart(s[1..]);
      assert s[1..][|s| - 1 - |r|..] == s[|s| - |r|..];
      assert s[..|s| - |r|] == [s[0]] + s[1..][..|s| - 1 - |r|];
      BlankCons(s[0], s[1..][..|s| - 1 - |r|]);
      r
    else s
  }

  /** `s` without its trailing whitespace: the longest prefix that does not end with whitespace. */
  function TrimEnd(s: string): (r: string)
    ensures |r| <= |s| && r == s[..|r|]
    ensures AllWhitespace(s[|r|..])
    ensures r == [] || !IsWhitespace(r[|r| - 1])
    decreases |s|
  {
    if |s| > 0 && IsWhitespace(s[|s| - 1]) then
      var r := TrimEnd(s[..|s| - 1]);
      assert s[..|s| - 1][..|r|] == s[..|r|];
      assert s[|r|..] == s[..|s| - 1][|r|..] + [s[|s| - 1]];
      BlankSnoc(s[..|s| - 1][|r|..], s[|s| - 1]);
      r
    else s
  }

  /** `String.prototype.trim`: `s` with whitespace removed from both ends. */
  function Trim(s: string): (r: string)
    ensures IsTrimmed(r)
  {
    TrimEnd(TrimStart(s))
  }

  /** What trim removes is whitespace, at the two ends only. */
  lemma TrimRemovesBlankEnds(s: string)
    ensures exists i, j :: 0 <= i <= j <= |s| && Trim(s) == s[i..j] && AllWhitespace(s[..i]) && AllWhitespace(s[j..])
  {
    var t := TrimStart(s);
    var r := TrimEnd(t);
    var i, j := |s| - |t|, |s| - |t| + |r|;
    assert Trim(s) == s[i..j] && AllWhitespace(s[j..]) by {
      assert t == s[i..];
      assert r == t[..|r|] && AllWhitespace(t[|r|..]);
      assert t[..|r|] == s[i..j];
      assert s[j..] == t[|r|..];
    }
    assert AllWhitespace(s[..i]);
  }

  lemma {:induction false} TrimStartSkips(pre: string, rest: string)
    requires AllWhitespace(pre)
    ensures TrimStart(pre + rest) == TrimStart(rest)
    decreases |pre|
  {
    if |pre| > 0 {
      assert (pre + rest)[0] == pre[0];
      assert (pre + rest)[1..] == pre[1..] + rest;
      TrimStartSkips(pre[1..], rest);
    } else {
      assert pre + rest == rest;
    }
  }

  lemma {:induction false} TrimEndSkips(rest: string, post: string)
    requires AllWhitespace(post)
    ensures TrimEnd(rest + post) == TrimEnd(rest)
    decreases |post|
  {
    if |post| > 0 {
      assert (rest + post)[|rest + post| - 1] == post[|post| - 1];
      assert (rest + post)[..|rest + post| - 1] == rest + post[..|post| - 1];
      TrimEndSkips(rest, post[..|post| - 1]);
    } else {
      assert rest + post == rest;
    }
  }

  /** A string that starts with a non-blank character has nothing to trim at the front. */
  lemma TrimStartStops(s: string)
    requires s != [] && !IsWhitespace(s[0])
    ensures TrimStart(s) == s
  {
  }

  /** A string that ends with a non-blank character has nothing to trim at the back. */
  lemma TrimEndStops(s: string)
    requires s == [] || !IsWhitespace(s[|s| - 1])
    ensures TrimEnd(s) == s
  {
  }

  /**
   * Trim is determined by its contract: if `s` is a whitespace prefix, a
   * trimmed middle and a whitespace suffix, `Trim(s)` is that middle.
   */
  lemma {:induction false} TrimUnique(pre: string, mid: string, post: string)
    requires AllWhitespace(pre) && AllWhitespace(post) && IsTrimmed(mid)
    ensures Trim(pre + mid + post) == mid
  {
    Regroup(pre, mid, post);
    TrimSkipsBlankPrefix(pre, mid + post);
    TrimBlankSuffix(mid, post);
  }

  lemma {:induction false} Regroup(pre: string, mid: string, post: string)
    ensures pre + mid + post == pre + (mid + post)
  {
  }

  lemma {:induction false} TrimBlankSuffix(mid: string, post: string)
    requires AllWhitespace(post) && IsTrimmed(mid)
    ensures Trim(mid + post) == mid
  {
    if mid == [] {
      assert mid + post == post;
      TrimBlank(post);
    } else {
      TrimFromMiddle(mid, post);
    }
  }

  lemma {:induction false} TrimSkipsBlankPrefix(pre: string, rest: string)
    requires AllWhitespace(pre)
    ensures Trim(pre + rest) == Trim(rest)
  {
    TrimStartSkips(pre, rest);
  }

  lemma {:induction false} TrimFromMiddle(mid: string, post: string)
    requires AllWhitespace(post) && mid != [] && IsTrimmed(mid)
    ensures Trim(mid + post) == mid
  {
    assert TrimStart(mid + post) == mid + post by {
      assert (mid + post)[0] == mid[0];
      TrimStartStops(mid + post);
    }
    TrimEndSkips(mid, post);
    TrimEndStops(mid);
  }

  /** A trimmed string is its own trim. */
  lemma TrimTrimmed(s: string)
    requires IsTrimmed(s)
    ensures Trim(s) == s
  {
    TrimUnique([], s, []);
    assert [] + s + [] == s;
  }

  /** Trimming twice is trimming once. */
  lemma TrimIdempotent(s: string)
    ensures Trim(Trim(s)) == Trim(s)
  {
    TrimUnique([], Trim(s), []);
    assert [] + Trim(s) + [] == Trim(s);
  }

  /** A blank text trims to the empty string. */
  lemma {:induction false} TrimBlank(s: string)
    requires AllWhitespace(s)
    ensures Trim(s) == []
  {
    TrimStartBlank(s);
    assert TrimEnd([]) == [];
  }

  /** A blank text has nothing left after its leading whitespace is removed. */
  lemma {:induction false} TrimStartBlank(s: string)
    requires AllWhitespace(s)
    ensures TrimStart(s) == []
  {
    assert s + [] == s;
    TrimStartSkips(s, []);
  }

  // ---------------------------------------------------------------------------
  // split

  /**
   * `s.split(sep)` for a one-character separator: the maximal separator-free
   * pieces of `s`. There is always at least one piece (`"".split(",")` is `[""]`).
   */
  function Split(s: string, sep: char): (r: seq<string>)
    ensures |r| >= 1
    ensures forall i :: 0 <= i < |r| ==> sep !in r[i]
    decreases |s|
  {
    if |s| == 0 then [[]]
    else
      var rest := Split(s[1..], sep);
      if s[0] == sep then [[]] + rest
      else [[s[0]] + rest[0]] + rest[1..]
  }

  /** `parts.join(sep)`: the inverse of `Split`. */
  function Join(parts: seq<string>, sep: char): string
    requires |parts| >= 1
    decreases |parts|
  {
    if |parts| == 1 then parts[0] else parts[0] + [sep] + Join(parts[1..], sep)
  }

  lemma JoinConsFirst(c: char, parts: seq<string>, sep: char)
    requires |parts| >= 1
    ensures Join([[c] + parts[0]] + parts[1..], sep) == [c] + Join(parts, sep)
  {
    var ps := [[c] + parts[0]] + parts[1..];
    assert ps[1..] == parts[1..];
  }

  /** Splitting loses nothing: joining the pieces with the separator gives back the text. */
  lemma {:induction false} SplitJoin(s: string, sep: char)
    ensures Join(Split(s, sep), sep) == s
    decreases |s|
  {
    if |s| > 0 {
      var rest := Split(s[1..], sep);
      SplitJoin(s[1..], sep);
      if s[0] == sep {
        assert ([[]] + rest)[1..] == rest;
      } else {
        JoinConsFirst(s[0], rest, sep);
      }
      assert [s[0]] + s[1..] == s;
    }
  }

  /** Joining separator-free pieces and splitting again gives back the pieces. */
  lemma {:induction false} JoinSplit(parts: seq<string>, sep: char)
    requires |parts| >= 1
    requires forall i :: 0 <= i < |parts| ==> sep !in parts[i]
    ensures Split(Join(parts, sep), sep) == parts
    decreases |Join(parts, sep)|
  {
    var s := Join(parts, sep);
    if parts[0] == [] {
      if |parts| > 1 {
        assert s == [sep] + Join(parts[1..], sep);
        assert s[1..] == Join(parts[1..], sep);
        JoinSplit(parts[1..], sep);
        assert [parts[0]] + parts[1..] == parts;
      }
    } else {
      var c := parts[0][0];
      var tail := [parts[0][1..]] + parts[1..];
      assert tail[1..] == parts[1..];
      assert [c] + tail[0] == parts[0];
      JoinConsFirst(c, tail, sep);
      assert [[c] + tail[0]] + tail[1..] == parts;
      assert s == [c] + Join(tail, sep);
      assert s[1..] == Join(tail, sep);
      JoinSplit(tail, sep);
    }
  }

  /** A text without the separator is a single piece. */
  lemma SplitWithoutSeparator(s: string, sep: char)
    requires sep !in s
    ensures Split(s, sep) == [s]
  {
    JoinSplit([s], sep);
  }

  // ---------------------------------------------------------------------------
  // Number(x) || 0

  predicate IsDigit(c: char) {
    '0' <= c <= '9'
  }

  predicate AllDigits(s: string) {
    forall k :: 0 <= k < |s| ==> IsDigit(s[k])
  }

  /** Optional `+` or `-`, then at least one decimal digit. */
  predicate IsDecimalInteger(s: string) {
    if |s| > 0 && (s[0] == '+' || s[0] == '-') then |s| > 1 && AllDigits(s[1..])
    else |s| > 0 && AllDigits(s)
  }

  /** The value of a string of decimal digits, most significant first (`""` is 0). */
  function DigitsValue(s: string): (n: nat)
    requires AllDigits(s)
    decreases |s|
  {
    if |s| == 0 then 0
    else DigitsValue(s[..|s| - 1]) * 10 + (s[|s| - 1] as int - '0' as int)
  }

  /**
   * `Number(x) || 0` for a catalog field: the value of a signed decimal
   * integer; every other field (empty, non-numeric) reads as 0.
   */
  function NumberOrZero(s: string): (n: int)
    ensures !IsDecimalInteger(s) ==> n == 0
    ensures IsDecimalInteger(s) && AllDigits(s) ==> n >= 0
    ensures IsDecimalInteger(s) && s[0] == '-' ==> n <= 0
  {
    if !IsDecimalInteger(s) then 0
    else if s[0] == '-' then 0 - DigitsValue(s[1..])
    else if s[0] == '+' then DigitsValue(s[1..])
    else DigitsValue(s)
  }

  /** A leading zero does not change the value of a digit string. */
  lemma {:induction false} LeadingZeroValue(d: string)
    requires AllDigits(d)
    ensures AllDigits("0" + d) && DigitsValue("0" + d) == DigitsValue(d)
    decreases |d|
  {
    var s := "0" + d;
    assert forall k :: 0 < k < |s| ==> s[k] == d[k - 1];
    if |d| > 0 {
      assert s[..|s| - 1] == "0" + d[..|d| - 1];
      assert s[|s| - 1] == d[|d| - 1];
      LeadingZeroValue(d[..|d| - 1]);
    }
  }

  /**
   * Every spelling of a digit string reads as `Number` reads it: the digits'
   * value, unchanged by a `+` sign or a leading zero, and negated by `-`.
   */
  lemma NumberOrZeroSpellings(d: string)
    requires |d| > 0 && AllDigits(d)
    ensures NumberOrZero(d) == DigitsValue(d)
    ensures NumberOrZero("+" + d) == NumberOrZero(d)
    ensures NumberOrZero("0" + d) == NumberOrZero(d)
    ensures NumberOrZero("-" + d) == 0 - NumberOrZero(d)
  {
    assert ("+" + d)[1..] == d && ("-" + d)[1..] == d;
    LeadingZeroValue(d);
  }

  /** The shortest decimal spelling of a natural number. */
  function NatToDecimal(n: nat): (s: string)
    ensures |s| >= 1 && AllDigits(s)
    decreases n
  {
    if n < 10 then [('0' as int + n) as char]
    else NatToDecimal(n / 10) + [('0' as int + n % 10) as char]
  }

  /** How a catalog file spells an integer column. */
  function IntToDecimal(n: int): (s: string)
    ensures IsDecimalInteger(s)
  {
    if n < 0 then "-" + NatToDecimal(-n) else NatToDecimal(n)
  }

  lemma {:induction false} NatToDecimalValue(n: nat)
    ensures DigitsValue(NatToDecimal(n)) == n
    decreases n
  {
    if n >= 10 {
      var s := NatToDecimal(n);
      NatToDecimalValue(n / 10);
      assert s[..|s| - 1] == NatToDecimal(n / 10);
    }
  }

  /** Reading a written integer back gives the integer: the column parser loses no value. */
  lemma NumberOrZeroRoundTrip(n: int)
    ensures NumberOrZero(IntToDecimal(n)) == n
  {
    if n < 0 {
      NatToDecimalValue(-n);
      assert IntToDecimal(n)[1..] == NatToDecimal(-n);
    } else {
      NatToDecimalValue(n);
      assert IntToDecimal(n)[0] != '-' && IntToDecimal(n)[0] != '+';
    }
  }
}
