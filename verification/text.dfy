/** The JavaScript string operations the system relies on, over ASCII:
    `trim`, `toLowerCase`, `includes`, `split`/`join`, number rendering, and
    the shape of a stored object id. */
module Text {

  /** Whitespace as `trim` and the regular-expression class `\s` see it,
      restricted to ASCII: space, tab, line feed, vertical tab, form feed,
      carriage return. */
  predicate IsSpace(c: char)
  {
    c == ' ' || ('\t' <= c <= '\r')
  }

  // ---------------------------------------------------------------- trim

  /** The index of the first non-whitespace character at or after `i`, or
      `|s|` when there is none. */
  function SkipSpaces(s: string, i: nat): (r: nat)
    requires i <= |s|
    ensures i <= r <= |s|
    ensures forall k :: i <= k < r ==> IsSpace(s[k])
    ensures r < |s| ==> !IsSpace(s[r])
    decreases |s| - i
  {
    if i < |s| && IsSpace(s[i]) then SkipSpaces(s, i + 1) else i
  }

  /** The end of `s[..j]` once its trailing whitespace is cut, never going
      below `lo`. */
  function SkipSpacesBack(s: string, lo: nat, j: nat): (r: nat)
    requires lo <= j <= |s|
    ensures lo <= r <= j
    ensures forall k :: r <= k < j ==> IsSpace(s[k])
    ensures lo < r ==> !IsSpace(s[r - 1])
    decreases j
  {
    if lo < j && IsSpace(s[j - 1]) then SkipSpacesBack(s, lo, j - 1) else j
  }

  /** `String.prototype.trim`: the text between the leading and the trailing
      whitespace. */
  function Trim(s: string): (r: string)
    ensures |r| > 0 ==> !IsSpace(r[0]) && !IsSpace(r[|r| - 1])
  {
    var lo := SkipSpaces(s, 0);
    var hi := SkipSpacesBack(s, lo, |s|);
    s[lo..hi]
  }

  /** Trimming yields a contiguous slice of the input whose ends are not
      whitespace, and everything cut away is whitespace. */
  lemma {:induction false} TrimSlice(s: string)
    ensures exists i, j :: 0 <= i <= j <= |s| && Trim(s) == s[i..j]
              && (forall k :: 0 <= k < i ==> IsSpace(s[k]))
              && (forall k :: j <= k < |s| ==> IsSpace(s[k]))
    ensures |Trim(s)| > 0 ==> !IsSpace(Trim(s)[0]) && !IsSpace(Trim(s)[|Trim(s)| - 1])
  {
    var lo := SkipSpaces(s, 0);
    var hi := SkipSpacesBack(s, lo, |s|);
    assert Trim(s) == s[lo..hi];
  }

  /** A string trims to empty exactly when it is all whitespace. */
  lemma {:induction false} TrimEmptyIffBlank(s: string)
    ensures Trim(s) == "" <==> forall k :: 0 <= k < |s| ==> IsSpace(s[k])
  {
    var lo := SkipSpaces(s, 0);
    var hi := SkipSpacesBack(s, lo, |s|);
    if Trim(s) == "" {
      assert hi == lo;
    } else {
      assert lo < |s| && !IsSpace(s[lo]);
    }
  }

  /** Trimming is idempotent: its result has nothing left to trim. */
  lemma {:induction false} TrimIdempotent(s: string)
    ensures Trim(Trim(s)) == Trim(s)
  {
    var t := Trim(s);
    if |t| > 0 {
      assert SkipSpaces(t, 0) == 0;
      assert SkipSpacesBack(t, 0, |t|) == |t|;
    }
    assert t[0..|t|] == t;
  }

  // ------------------------------------------------------------ lowercase

  /** ASCII `toLowerCase` of one character. */
  function LowerChar(c: char): (r: char)
    ensures 'A' <= c <= 'Z' ==> r as int == c as int + 32
    ensures !('A' <= c <= 'Z') ==> r == c
  {
    if 'A' <= c <= 'Z' then (c as int + 32) as char else c
  }

  /** ASCII `toLowerCase` of a string: character by character. */
  function ToLower(s: string): (r: string)
    ensures |r| == |s|
    ensures forall k :: 0 <= k < |s| ==> r[k] == LowerChar(s[k])
  {
    seq(|s|, k requires 0 <= k < |s| => LowerChar(s[k]))
  }

  /** Lower-casing twice is lower-casing once. */
  lemma {:induction false} ToLowerIdempotent(s: string)
    ensures ToLower(ToLower(s)) == ToLower(s)
  {
  }

  /** Lower-casing commutes with slicing. */
  lemma {:induction false} ToLowerSlice(s: string, i: int, j: int)
    requires 0 <= i <= j <= |s|
    ensures ToLower(s[i..j]) == ToLower(s)[i..j]
  {
  }

  // ------------------------------------------------------------ includes

  /** `hay.includes(needle)`: scans the start positions left to right. */
  predicate Includes(hay: string, needle: string)
    decreases |hay|
  {
    |needle| <= |hay| &&
    (hay[..|needle|] == needle || (|hay| > 0 && Includes(hay[1..], needle)))
  }

  /** `needle` occurs in `hay` starting at index `i`. */
  predicate OccursAt(hay: string, needle: string, i: int)
  {
    0 <= i && i + |needle| <= |hay| && hay[i..i + |needle|] == needle
  }

  /** The scan finds `needle` exactly when it occurs at some index. */
  lemma {:induction false} IncludesIff(hay: string, needle: string)
    ensures Includes(hay, needle) <==> exists i :: OccursAt(hay, needle, i)
    decreases |hay|
  {
    if Includes(hay, needle) {
      if hay[..|needle|] == needle {
        assert OccursAt(hay, needle, 0);
      } else {
        IncludesIff(hay[1..], needle);
        var i :| OccursAt(hay[1..], needle, i);
        assert hay[1..][i..i + |needle|] == hay[i + 1..i + 1 + |needle|];
        assert OccursAt(hay, needle, i + 1);
      }
    }
    if exists i :: OccursAt(hay, needle, i) {
      var i :| OccursAt(hay, needle, i);
      if i > 0 {
        assert hay[1..][i - 1..i - 1 + |needle|] == hay[i..i + |needle|];
        assert OccursAt(hay[1..], needle, i - 1);
        IncludesIff(hay[1..], needle);
      }
    }
  }

  /** The empty string is included in every string. */
  lemma {:induction false} IncludesEmpty(hay: string)
    ensures Includes(hay, "")
  {
    assert hay[..0] == "";
  }

  /** Inclusion is transitive: a piece of a piece is a piece of the whole. */
  lemma {:induction false} IncludesTransitive(a: string, b: string, c: string)
    requires Includes(b, a) && Includes(c, b)
    ensures Includes(c, a)
  {
    IncludesIff(b, a);
    IncludesIff(c, b);
    var i :| OccursAt(b, a, i);
    var j :| OccursAt(c, b, j);
    assert b == c[j..j + |b|];
    assert a == b[i..i + |a|];
    forall k | 0 <= k < |a|
      ensures c[j + i..j + i + |a|][k] == a[k]
    {
      assert a[k] == b[i + k] == c[j + i + k];
    }
    assert c[j + i..j + i + |a|] == a;
    assert OccursAt(c, a, j + i);
    IncludesIff(c, a);
  }

  /** Inclusion survives lower-casing both sides. */
  lemma {:induction false} IncludesLower(hay: string, needle: string)
    requires Includes(hay, needle)
    ensures Includes(ToLower(hay), ToLower(needle))
  {
    IncludesIff(hay, needle);
    var i :| OccursAt(hay, needle, i);
    ToLowerSlice(hay, i, i + |needle|);
    assert OccursAt(ToLower(hay), ToLower(needle), i);
    IncludesIff(ToLower(hay), ToLower(needle));
  }

  /** A string is included in itself. */
  lemma {:induction false} IncludesSelf(s: string)
    ensures Includes(s, s)
  {
    assert s[..|s|] == s;
  }

  /** The only string included in the empty string is the empty string. */
  lemma {:induction false} IncludedInEmpty(needle: string)
    ensures Includes("", needle) <==> needle == ""
  {
  }

  // ------------------------------------------------------- starts with

  /** `s.startsWith(prefix)`. */
  predicate StartsWith(s: string, prefix: string)
  {
    |prefix| <= |s| && s[..|prefix|] == prefix
  }

  // -------------------------------------------------------- split / join

  /** The index of the first `c` in `s`, or `|s|` when there is none. */
  function IndexOf(s: string, c: char): (r: nat)
    ensures r <= |s|
    ensures forall k :: 0 <= k < r ==> s[k] != c
    ensures r < |s| ==> s[r] == c
  {
    if |s| == 0 then 0 else if s[0] == c then 0 else 1 + IndexOf(s[1..], c)
  }

  /** The first `c` is at `i` when none comes before and `i` holds one or is
      the end. */
  lemma {:induction false} IndexOfAt(s: string, c: char, i: nat)
    requires i <= |s|
    requires forall k :: 0 <= k < i ==> s[k] != c
    requires i == |s| || s[i] == c
    ensures IndexOf(s, c) == i
    decreases |s|
  {
    if |s| > 0 && s[0] != c {
      IndexOfAt(s[1..], c, i - 1);
    }
  }

  /** `s.split(c)` for a one-character separator: the maximal runs between
      separators, always at least one (possibly empty) piece. */
  function Split(s: string, c: char): (parts: seq<string>)
    ensures |parts| >= 1
    decreases |s|
  {
    var i := IndexOf(s, c);
    if i == |s| then [s] else [s[..i]] + Split(s[i + 1..], c)
  }

  /** No piece holds the separator. */
  lemma {:induction false} SplitPiecesFree(s: string, c: char)
    ensures forall k :: 0 <= k < |Split(s, c)| ==> c !in Split(s, c)[k]
    decreases |s|
  {
    var i := IndexOf(s, c);
    if i < |s| {
      var head, rest := s[..i], s[i + 1..];
      SplitPiecesFree(rest, c);
      assert c !in head by {
        assert forall k :: 0 <= k < |head| ==> head[k] == s[k];
      }
      SplitStep(s, c);
    }
  }

  /** `parts.join(c)`. */
  function Join(parts: seq<string>, c: char): string
    decreases |parts|
  {
    if |parts| == 0 then ""
    else if |parts| == 1 then parts[0]
    else parts[0] + [c] + Join(parts[1..], c)
  }

  /** Splitting and re-joining with the same separator restores the string. */
  lemma {:induction false} JoinSplit(s: string, c: char)
    ensures Join(Split(s, c), c) == s
    decreases |s|
  {
    var i := IndexOf(s, c);
    if i < |s| {
      var head, rest := s[..i], s[i + 1..];
      var tail := Split(rest, c);
      assert Split(s, c) == [head] + tail by { SplitStep(s, c); }
      assert Join([head] + tail, c) == head + [c] + Join(tail, c) by { JoinCons(head, tail, c); }
      assert Join(tail, c) == rest by { JoinSplit(rest, c); }
      assert s == head + [c] + rest;
    } else {
      assert Split(s, c) == [s];
    }
  }

  lemma {:induction false} JoinCons(head: string, tail: seq<string>, c: char)
    requires |tail| >= 1
    ensures Join([head] + tail, c) == head + [c] + Join(tail, c)
  {
    assert ([head] + tail)[1..] == tail;
  }

  /** A piece free of the separator followed by the separator is split off
      as the first piece. */
  lemma {:induction false} SplitCons(a: string, c: char, rest: string)
    requires c !in a
    ensures Split(a + [c] + rest, c) == [a] + Split(rest, c)
  {
    var s := a + [c] + rest;
    var i := IndexOf(s, c);
    assert forall k :: 0 <= k < |a| ==> s[k] == a[k];
    assert s[|a|] == c;
    assert i == |a|;
    assert s[..i] == a;
    assert s[i + 1..] == rest;
  }

  /** A string free of the separator splits into itself alone. */
  lemma {:induction false} SplitNone(s: string, c: char)
    requires c !in s
    ensures Split(s, c) == [s]
  {
  }

  /** Joining pieces free of the separator and splitting again gives back
      the pieces. */
  lemma {:induction false} SplitJoin(parts: seq<string>, c: char)
    requires |parts| >= 1
    requires forall k :: 0 <= k < |parts| ==> c !in parts[k]
    ensures Split(Join(parts, c), c) == parts
    decreases |parts|
  {
    if |parts| == 1 {
      SplitNone(parts[0], c);
    } else {
      SplitJoin(parts[1..], c);
      SplitCons(parts[0], c, Join(parts[1..], c));
      assert parts == [parts[0]] + parts[1..];
    }
  }

  /** `s.split("/").pop()`: the last `/`-separated segment of a path. */
  function Basename(s: string): (r: string)
    ensures '/' !in r
  {
    var parts := Split(s, '/');
    SplitPiecesFree(s, '/');
    parts[|parts| - 1]
  }

  /** `b` ends `s`, and is either all of it or preceded by a `/`. */
  predicate SlashSuffix(s: string, b: string)
  {
    && |b| <= |s|
    && (forall k :: 0 <= k < |b| ==> b[k] == s[|s| - |b| + k])
    && (|b| < |s| ==> s[|s| - |b| - 1] == '/')
  }

  /** The basename is a suffix of the path, preceded by a `/` unless it is
      the whole path. */
  lemma {:induction false} BasenameSuffix(s: string)
    ensures SlashSuffix(s, Basename(s))
    decreases |s|
  {
    var i := IndexOf(s, '/');
    var b := Basename(s);
    if i < |s| {
      var rest := s[i + 1..];
      assert b == Basename(rest) by { BasenameSkip(s); }
      assert SlashSuffix(rest, b) by { BasenameSuffix(rest); }
      SlashSuffixExtend(s, i + 1, b);
    } else {
      assert b == s by { assert Split(s, '/') == [s]; }
    }
  }

  /** A slash-preceded suffix of what follows a slash is one of the whole
      string. */
  lemma {:induction false} SlashSuffixExtend(s: string, j: nat, b: string)
    requires 0 < j <= |s| && s[j - 1] == '/' && SlashSuffix(s[j..], b)
    ensures SlashSuffix(s, b)
  {
    var rest := s[j..];
    forall k | 0 <= k < |b|
      ensures b[k] == s[|s| - |b| + k]
    {
      assert b[k] == rest[|rest| - |b| + k];
    }
    if |b| < |rest| {
      assert rest[|rest| - |b| - 1] == s[|s| - |b| - 1];
    }
  }

  /** Past the first slash, the last segment is that of the rest. */
  lemma {:induction false} BasenameSkip(s: string)
    requires IndexOf(s, '/') < |s|
    ensures Basename(s) == Basename(s[IndexOf(s, '/') + 1..])
  {
    SplitLast(s, '/');
    BasenameIsLast(s);
    BasenameIsLast(s[IndexOf(s, '/') + 1..]);
  }

  lemma {:induction false} BasenameIsLast(s: string)
    ensures Basename(s) == Split(s, '/')[|Split(s, '/')| - 1]
  {
  }

  /** Past the first separator, the last piece is that of the rest. */
  lemma {:induction false} SplitLast(s: string, c: char)
    requires IndexOf(s, c) < |s|
    ensures var whole, tail := Split(s, c), Split(s[IndexOf(s, c) + 1..], c);
            whole[|whole| - 1] == tail[|tail| - 1]
  {
    var i := IndexOf(s, c);
    var tail := Split(s[i + 1..], c);
    SplitStep(s, c);
    LastOfCons(s[..i], tail);
  }

  /** One unfolding of `Split` at the first separator. */
  lemma {:induction false} SplitStep(s: string, c: char)
    requires IndexOf(s, c) < |s|
    ensures Split(s, c) == [s[..IndexOf(s, c)]] + Split(s[IndexOf(s, c) + 1..], c)
  {
  }

  lemma {:induction false} LastOfCons(x: string, xs: seq<string>)
    requires |xs| >= 1
    ensures ([x] + xs)[|xs|] == xs[|xs| - 1]
  {
  }

  /** The last segment of `dir/name` is `name` when `name` has no slash. */
  lemma {:induction false} BasenameOfPath(dir: string, name: string)
    requires '/' !in name
    ensures Basename(dir + ['/'] + name) == name
    decreases |dir|
  {
    var s := dir + ['/'] + name;
    var i := IndexOf(dir, '/');
    assert forall k :: 0 <= k < i ==> s[k] == dir[k];
    if i < |dir| {
      IndexOfAt(s, '/', i);
      assert s[i + 1..] == dir[i + 1..] + ['/'] + name;
      BasenameSkip(s);
      BasenameOfPath(dir[i + 1..], name);
    } else {
      IndexOfAt(s, '/', |dir|);
      assert s[|dir| + 1..] == name;
      BasenameSkip(s);
      SplitNone(name, '/');
    }
  }


  // ------------------------------------------------------ numbers

  /** The decimal digit for `d`. */
  function Digit(d: nat): (r: char)
    requires d < 10
    ensures '0' <= r <= '9'
  {
    ('0' as int + d) as char
  }

  /** Decimal rendering of a natural number, most significant digit first. */
  function NatString(n: nat): (r: string)
    ensures |r| > 0
    ensures forall k :: 0 <= k < |r| ==> '0' <= r[k] <= '9'
    decreases n
  {
    if n < 10 then [Digit(n)] else NatString(n / 10) + [Digit(n % 10)]
  }

  /** `Number.prototype.toString` for an integer: a minus sign for negative
      values, then the decimal digits. Never empty. */
  function IntString(n: int): (r: string)
    ensures |r| > 0
    ensures n >= 0 ==> forall k :: 0 <= k < |r| ==> '0' <= r[k] <= '9'
    ensures n < 0 ==> r[0] == '-'
  {
    if n < 0 then "-" + NatString(-n) else NatString(n)
  }

  predicate AllDigits(s: string)
  {
    forall k :: 0 <= k < |s| ==> '0' <= s[k] <= '9'
  }

  /** The number a string of decimal digits denotes, most significant digit
      first; the reading `Number(s)` gives such a string. */
  function DecimalValue(s: string): nat
    requires AllDigits(s)
  {
    if |s| == 0 then 0
    else 10 * DecimalValue(s[..|s| - 1]) + (s[|s| - 1] as int - '0' as int)
  }

  /** The rendering reads back as the number, and has no leading zero. */
  lemma {:induction false} NatStringValue(n: nat)
    ensures AllDigits(NatString(n)) && DecimalValue(NatString(n)) == n
    ensures |NatString(n)| > 1 ==> NatString(n)[0] != '0'
    decreases n
  {
    var s := NatString(n);
    if n >= 10 {
      NatStringValue(n / 10);
      assert s[..|s| - 1] == NatString(n / 10);
      assert s[0] == NatString(n / 10)[0];
      if n / 10 < 10 {
        assert NatString(n / 10) == [Digit(n / 10)];
      }
    }
  }

  /** The text of an integer reads back as the integer: the digits alone for
      a non-negative one, the digits after the minus sign otherwise. */
  lemma {:induction false} IntStringValue(n: int)
    ensures n >= 0 ==> AllDigits(IntString(n)) && DecimalValue(IntString(n)) == n
    ensures n < 0 ==> AllDigits(IntString(n)[1..]) && DecimalValue(IntString(n)[1..]) == -n
  {
    if n < 0 {
      assert IntString(n)[1..] == NatString(-n);
      NatStringValue(-n);
    } else {
      NatStringValue(n);
    }
  }

  /** Different integers have different texts. */
  lemma {:induction false} IntStringInjective(a: int, b: int)
    ensures IntString(a) == IntString(b) <==> a == b
  {
    if IntString(a) == IntString(b) {
      IntStringValue(a);
      IntStringValue(b);
    }
  }

  // ----------------------------------------------------------- object ids

  predicate IsHexDigit(c: char)
  {
    '0' <= c <= '9' || 'a' <= c <= 'f' || 'A' <= c <= 'F'
  }

  /** The document stores' object-id shape (what `ObjectId.isValid` accepts
      for a string here): 24 hexadecimal digits. */
  predicate ValidObjectId(s: string)
  {
    |s| == 24 && forall i :: 0 <= i < |s| ==> IsHexDigit(s[i])
  }
}
