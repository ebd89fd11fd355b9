/**
 * String operations of the JavaScript standard library that the application relies on,
 * written as functions over `seq<char>` with the properties the application depends on.
 */
module Text {
  import opened Wrappers

  /** White space as JavaScript's `\s` and `String.prototype.trim` define it (WhiteSpace and LineTerminator). */
  predicate IsSpace(c: char) {
    c == ' ' || c == '\t' || c == '\n' || c == '\r' || c == '\U{000B}' || c == '\U{000C}'
    || c == '\U{00A0}' || c == '\U{1680}' || ('\U{2000}' <= c <= '\U{200A}')
    || c == '\U{2028}' || c == '\U{2029}' || c == '\U{202F}' || c == '\U{205F}'
    || c == '\U{3000}' || c == '\U{FEFF}'
  }

  /** A character of `\w` outside Unicode mode, which decides where `\b` holds. */
  predicate IsWordChar(c: char) {
    ('a' <= c <= 'z') || ('A' <= c <= 'Z') || ('0' <= c <= '9') || c == '_'
  }

  predicate IsDigit(c: char) {
    '0' <= c <= '9'
  }

  /** ASCII lower case: the only folding a case-insensitive pattern made of ASCII letters sees. */
  function LowerAscii(c: char): (d: char)
    ensures ('A' <= c <= 'Z') ==> d as int == c as int + 32
    ensures !('A' <= c <= 'Z') ==> d == c
  {
    if 'A' <= c <= 'Z' then (c as int + 32) as char else c
  }

  predicate StartsWith(s: string, p: string) {
    |p| <= |s| && s[..|p|] == p
  }

  predicate SameIgnoringCase(a: string, b: string) {
    |a| == |b| && forall i :: 0 <= i < |a| ==> LowerAscii(a[i]) == LowerAscii(b[i])
  }

  predicate StartsWithIgnoringCase(s: string, p: string) {
    |p| <= |s| && SameIgnoringCase(s[..|p|], p)
  }

  /** `p` occurs somewhere in `s`. */
  predicate Occurs(s: string, p: string)
    decreases |s|
  {
    StartsWith(s, p) || (s != [] && Occurs(s[1..], p))
  }

  /** `s.indexOf(p)`: the least position where `p` starts. */
  function IndexOf(s: string, p: string): (r: Option<nat>)
    ensures r.Some? ==> r.value + |p| <= |s| && StartsWith(s[r.value..], p)
    ensures r.Some? ==> forall j :: 0 <= j < r.value ==> !StartsWith(s[j..], p)
    ensures r.None? ==> forall j :: 0 <= j <= |s| ==> !StartsWith(s[j..], p)
  {
    IndexOfFrom(s, p, 0)
  }

  /** `s.indexOf(p, i)`: the least position from `i` on where `p` starts. */
  function IndexOfFrom(s: string, p: string, i: nat): (r: Option<nat>)
    requires i <= |s|
    ensures r.Some? ==> i <= r.value && r.value + |p| <= |s| && StartsWith(s[r.value..], p)
    ensures r.Some? ==> forall j :: i <= j < r.value ==> !StartsWith(s[j..], p)
    ensures r.None? ==> forall j :: i <= j <= |s| ==> !StartsWith(s[j..], p)
    decreases |s| - i
  {
    if StartsWith(s[i..], p) then Some(i)
    else if i == |s| then None
    else IndexOfFrom(s, p, i + 1)
  }

  /** The least position where `p` starts in `s`, ASCII letters compared without case. */
  function IndexOfIgnoringCase(s: string, p: string): (r: Option<nat>)
    ensures r.Some? ==> r.value + |p| <= |s| && StartsWithIgnoringCase(s[r.value..], p)
    ensures r.Some? ==> forall j :: 0 <= j < r.value ==> !StartsWithIgnoringCase(s[j..], p)
    ensures r.None? ==> forall j :: 0 <= j <= |s| ==> !StartsWithIgnoringCase(s[j..], p)
  {
    IndexOfIgnoringCaseFrom(s, p, 0)
  }

  /** The least such position from `i` on. */
  function IndexOfIgnoringCaseFrom(s: string, p: string, i: nat): (r: Option<nat>)
    requires i <= |s|
    ensures r.Some? ==> i <= r.value && r.value + |p| <= |s| && StartsWithIgnoringCase(s[r.value..], p)
    ensures r.Some? ==> forall j :: i <= j < r.value ==> !StartsWithIgnoringCase(s[j..], p)
    ensures r.None? ==> forall j :: i <= j <= |s| ==> !StartsWithIgnoringCase(s[j..], p)
    decreases |s| - i
  {
    if StartsWithIgnoringCase(s[i..], p) then Some(i)
    else if i == |s| then None
    else IndexOfIgnoringCaseFrom(s, p, i + 1)
  }

  /** The least position of character `c` in `s`. */
  function IndexOfChar(s: string, c: char): (r: Option<nat>)
    ensures r.Some? ==> r.value < |s| && s[r.value] == c
    ensures r.Some? ==> forall j :: 0 <= j < r.value ==> s[j] != c
    ensures r.None? ==> c !in s
    decreases |s|
  {
    if s == [] then None
    else if s[0] == c then Some(0)
    else
      match IndexOfChar(s[1..], c)
      case Some(k) => Some(k + 1)
      case None => None
  }

  // ---------------------------------------------------------------------------
  // Trimming and white-space collapsing

  /** No white space at either end. */
  predicate IsTrimmed(s: string) {
    s == [] || (!IsSpace(s[0]) && !IsSpace(s[|s| - 1]))
  }

  /** Every white-space character is a plain space and no two white-space characters are adjacent. */
  predicate SingleSpaced(s: string) {
    && (forall i :: 0 <= i < |s| && IsSpace(s[i]) ==> s[i] == ' ')
    && (forall i :: 0 <= i < |s| - 1 ==> !(IsSpace(s[i]) && IsSpace(s[i + 1])))
  }

  predicate AllSpace(s: string) {
    forall i :: 0 <= i < |s| ==> IsSpace(s[i])
  }

  /** `String.prototype.trimStart`: drops the leading white space and nothing else. */
  function TrimStart(s: string): (r: string)
    ensures |r| <= |s| && r == s[|s| - |r|..]
    ensures AllSpace(s[..|s| - |r|])
    ensures r == [] || !IsSpace(r[0])
    decreases |s|
  {
    if s != [] && IsSpace(s[0]) then
      var r := TrimStart(s[1..]);
      assert s[..|s| - |r|] == [s[0]] + s[1..][..|s| - 1 - |r|];
      r
    else s
  }

  /** `String.prototype.trimEnd`: drops the trailing white space and nothing else. */
  function TrimEnd(s: string): (r: string)
    ensures |r| <= |s| && r == s[..|r|]
    ensures AllSpace(s[|r|..])
    ensures r == [] || !IsSpace(r[|r| - 1])
    decreases |s|
  {
    if s != [] && IsSpace(s[|s| - 1]) then
      var r := TrimEnd(s[..|s| - 1]);
      assert s[|r|..] == s[..|s| - 1][|r|..] + [s[|s| - 1]];
      r
    else s
  }

  /** `String.prototype.trim`: `s` without its leading and trailing white space. */
  function Trim(s: string): (r: string)
    ensures IsTrimmed(r)
    ensures |r| <= |TrimStart(s)| && r == TrimStart(s)[..|r|] && AllSpace(TrimStart(s)[|r|..])
  {
    var a := TrimStart(s);
    var r := TrimEnd(a);
    PrefixKeepsFront(a, r);
    r
  }

  /** A non-empty prefix starts where its string does. */
  lemma PrefixKeepsFront(a: string, r: string)
    requires |r| <= |a| && r == a[..|r|]
    requires a == [] || !IsSpace(a[0])
    ensures r == [] || !IsSpace(r[0])
  {
    if r != [] { assert r[0] == a[0]; }
  }

  /** `s.replace(/\s+/g, ' ')`: every maximal run of white space becomes one space. */
  function CollapseSpaces(s: string): (r: string)
    ensures |r| <= |s|
    ensures (r == []) == (s == [])
    ensures r != [] ==> (IsSpace(r[0]) <==> IsSpace(s[0]))
    ensures SingleSpaced(r)
    decreases |s|
  {
    if s == [] then []
    else if IsSpace(s[0]) then
      var t := TrimStart(s);
      assert |t| < |s|;
      [' '] + CollapseSpaces(t)
    else [s[0]] + CollapseSpaces(s[1..])
  }

  /** The two white-space passes of the scraper: collapse runs, then trim. */
  function Normalize(s: string): (r: string)
    ensures IsTrimmed(r) && SingleSpaced(r)
  {
    var c := CollapseSpaces(s);
    TrimKeepsSingleSpaced(c);
    Trim(c)
  }

  /** Trimming keeps a string single-spaced. */
  lemma TrimKeepsSingleSpaced(c: string)
    requires SingleSpaced(c)
    ensures SingleSpaced(Trim(c))
  {
    SingleSpacedInner(c, TrimStart(c), Trim(c));
  }

  /** A prefix of a suffix of a single-spaced string is single-spaced. */
  lemma SingleSpacedInner(s: string, a: string, r: string)
    requires SingleSpaced(s)
    requires |a| <= |s| && a == s[|s| - |a|..] && |r| <= |a| && r == a[..|r|]
    ensures SingleSpaced(r)
  {
    var k := |s| - |a|;
    assert forall i :: 0 <= i < |r| ==> r[i] == s[k + i];
  }

  /** The characters of `s` that are not white space, in order. */
  function Visible(s: string): (r: string)
    ensures |r| <= |s|
    ensures forall c :: c in r ==> c in s && !IsSpace(c)
  {
    if s == [] then []
    else if IsSpace(s[0]) then Visible(s[1..])
    else [s[0]] + Visible(s[1..])
  }

  // ---------------------------------------------------------------------------
  // Literal replacement

  /** `s.replace(/p/g, rep)` for a literal pattern: leftmost, non-overlapping occurrences are replaced. */
  function ReplaceAll(s: string, p: string, rep: string): (r: string)
    requires |p| > 0
    ensures |rep| <= |p| ==> |r| <= |s|
    ensures rep == p ==> r == s
    decreases |s|
  {
    if s == [] then []
    else if StartsWith(s, p) then rep + ReplaceAll(s[|p|..], p, rep)
    else [s[0]] + ReplaceAll(s[1..], p, rep)
  }

  /** `s.replace(p, '')` with a string pattern: the first occurrence of `p` is removed. */
  function RemoveFirst(s: string, p: string): (r: string)
    ensures !Occurs(s, p) ==> r == s
  {
    match IndexOf(s, p)
    case Some(i) =>
      assert Occurs(s, p) by { OccursInSuffix(s, p, i); }
      s[..i] + s[i + |p|..]
    case None =>
      NotOccursFromIndexOf(s, p);
      s
  }

  // ---------------------------------------------------------------------------
  // Decimal numerals

  function DigitChar(d: nat): (c: char)
    requires d < 10
    ensures IsDigit(c) && c as int - '0' as int == d
  {
    ('0' as int + d) as char
  }

  /** The decimal numeral of `n`, as template literals and `String(n)` print it. */
  function DecimalString(n: nat): (s: string)
    ensures |s| > 0 && forall i :: 0 <= i < |s| ==> IsDigit(s[i])
    ensures |s| > 1 ==> s[0] != '0'
  {
    if n < 10 then [DigitChar(n)] else DecimalString(n / 10) + [DigitChar(n % 10)]
  }

  /** The number a string of decimal digits denotes. */
  function DecimalValue(ds: string): nat
    requires forall i :: 0 <= i < |ds| ==> IsDigit(ds[i])
  {
    if ds == [] then 0
    else
      var d := ds[|ds| - 1];
      assert IsDigit(d);
      DecimalValue(ds[..|ds| - 1]) * 10 + (d as int - '0' as int)
  }

  /** The longest prefix of `s` made of decimal digits: what `parseInt` reads of a string that starts with a digit. */
  function LeadingDigits(s: string): (ds: string)
    ensures StartsWith(s, ds)
    ensures forall i :: 0 <= i < |ds| ==> IsDigit(ds[i])
    ensures |ds| < |s| ==> !IsDigit(s[|ds|])
  {
    if s != [] && IsDigit(s[0]) then [s[0]] + LeadingDigits(s[1..]) else []
  }

  // ---------------------------------------------------------------------------
  // Lengths in UTF-16 code units

  /** The UTF-16 code units of one character: two for a character beyond U+FFFF, which is a surrogate pair. */
  function CodeUnits(c: char): (n: nat)
    ensures n == 1 || n == 2
    ensures n == 2 <==> c as int > 0xFFFF
  {
    if c as int > 0xFFFF then 2 else 1
  }

  /** `s.length`: the number of UTF-16 code units of `s`. */
  function Utf16Length(s: string): (n: nat)
    ensures |s| <= n <= 2 * |s|
    decreases |s|
  {
    if s == [] then 0 else CodeUnits(s[0]) + Utf16Length(s[1..])
  }

  /**
   * `s.substring(0, n)` as far as a string of characters can hold it: the longest prefix of at
   * most `n` code units, so a surrogate pair the cut would split is left out whole.
   */
  function Utf16Prefix(s: string, n: nat): (r: string)
    ensures |r| <= |s| && r == s[..|r|]
    ensures Utf16Length(r) <= n
    ensures |r| < |s| ==> Utf16Length(r) + CodeUnits(s[|r|]) > n
    decreases |s|
  {
    if s == [] || CodeUnits(s[0]) > n then []
    else
      var t := Utf16Prefix(s[1..], n - CodeUnits(s[0]));
      assert ([s[0]] + t)[1..] == t;
      [s[0]] + t
  }

  // ---------------------------------------------------------------------------
  // Lemmas

  /** Code units add up over a concatenation. */
  lemma {:induction false} Utf16LengthConcat(a: string, b: string)
    ensures Utf16Length(a + b) == Utf16Length(a) + Utf16Length(b)
    decreases |a|
  {
    if a == [] {
      assert a + b == b;
    } else {
      assert (a + b)[0] == a[0] && (a + b)[1..] == a[1..] + b;
      Utf16LengthConcat(a[1..], b);
    }
  }

  /** Without characters beyond U+FFFF, every character is one code unit. */
  lemma {:induction false} Utf16LengthOfBmp(s: string)
    requires forall i :: 0 <= i < |s| ==> s[i] as int <= 0xFFFF
    ensures Utf16Length(s) == |s|
    decreases |s|
  {
    if s != [] {
      Utf16LengthOfBmp(s[1..]);
    }
  }

  /** ... so the prefix of `n` code units is the first `n` characters, exactly what `substring` gives. */
  lemma Utf16PrefixOfBmp(s: string, n: nat)
    requires forall i :: 0 <= i < |s| ==> s[i] as int <= 0xFFFF
    requires n <= |s|
    ensures Utf16Prefix(s, n) == s[..n]
  {
    var r := Utf16Prefix(s, n);
    Utf16LengthOfBmp(r);
  }

  lemma {:induction false} NotOccursFromIndexOf(s: string, p: string)
    requires forall j :: 0 <= j <= |s| ==> !StartsWith(s[j..], p)
    ensures !Occurs(s, p)
    decreases |s|
  {
    assert !StartsWith(s[0..], p);
    assert s[0..] == s;
    if s != [] {
      forall j | 0 <= j <= |s[1..]| ensures !StartsWith(s[1..][j..], p) {
        assert s[1..][j..] == s[j + 1..];
      }
      NotOccursFromIndexOf(s[1..], p);
    }
  }

  lemma {:induction false} OccursInSuffix(s: string, p: string, k: nat)
    requires k <= |s| && Occurs(s[k..], p)
    ensures Occurs(s, p)
    decreases k
  {
    if k > 0 {
      assert s[1..][k - 1..] == s[k..];
      OccursInSuffix(s[1..], p, k - 1);
    } else {
      assert s[0..] == s;
    }
  }

  /** The decimal numeral round-trips: `parseInt(String(n)) == n`. */
  lemma {:induction false} DecimalRoundTrip(n: nat)
    ensures DecimalValue(DecimalString(n)) == n
  {
    if n >= 10 {
      var s := DecimalString(n / 10) + [DigitChar(n % 10)];
      assert s[..|s| - 1] == DecimalString(n / 10);
      DecimalRoundTrip(n / 10);
    }
  }

  /** `parseInt` of a numeral followed by a non-digit reads exactly the numeral. */
  lemma {:induction false} LeadingDigitsOfNumeral(ds: string, rest: string)
    requires forall i :: 0 <= i < |ds| ==> IsDigit(ds[i])
    requires rest == [] || !IsDigit(rest[0])
    ensures LeadingDigits(ds + rest) == ds
    decreases |ds|
  {
    if ds != [] {
      assert (ds + rest)[1..] == ds[1..] + rest;
      LeadingDigitsOfNumeral(ds[1..], rest);
      assert [ds[0]] + ds[1..] == ds;
    } else {
      assert ds + rest == rest;
    }
  }

  /** A numeral that does not start with `0` denotes a positive number. */
  lemma {:induction false} NonZeroNumeral(ds: string)
    requires forall i :: 0 <= i < |ds| ==> IsDigit(ds[i])
    requires ds != [] && ds[0] != '0'
    ensures DecimalValue(ds) >= 1
    decreases |ds|
  {
    if |ds| > 1 {
      NonZeroNumeral(ds[..|ds| - 1]);
    }
  }

  /** Trimming an already-trimmed string changes nothing. */
  lemma TrimmedIsFixed(s: string)
    requires IsTrimmed(s)
    ensures Trim(s) == s
  {
  }

  /** A string of white space alone trims to the empty string. */
  lemma {:induction false} TrimAllSpace(s: string)
    requires AllSpace(s)
    ensures Trim(s) == []
  {
    TrimStartAllSpace(s);
  }

  lemma {:induction false} TrimStartAllSpace(s: string)
    requires AllSpace(s)
    ensures TrimStart(s) == []
    decreases |s|
  {
    if s != [] {
      TrimStartAllSpace(s[1..]);
    }
  }

  /** Collapsing white space keeps every other character, in order. */
  lemma {:induction false} CollapseKeepsVisible(s: string)
    ensures Visible(CollapseSpaces(s)) == Visible(s)
    decreases |s|
  {
    if s == [] {
    } else if IsSpace(s[0]) {
      var t := TrimStart(s);
      VisibleDropsSpaces(s, |s| - |t|);
      CollapseKeepsVisible(t);
      assert ([' '] + CollapseSpaces(t))[1..] == CollapseSpaces(t);
    } else {
      CollapseKeepsVisible(s[1..]);
      assert ([s[0]] + CollapseSpaces(s[1..]))[1..] == CollapseSpaces(s[1..]);
    }
  }

  lemma {:induction false} VisibleDropsSpaces(s: string, k: nat)
    requires k <= |s| && AllSpace(s[..k])
    ensures Visible(s) == Visible(s[k..])
    decreases k
  {
    if k > 0 {
      assert s[1..][k - 1..] == s[k..];
      assert s[1..][..k - 1] == s[1..k];
      VisibleDropsSpaces(s[1..], k - 1);
    } else {
      assert s[0..] == s;
    }
  }

  /** A single-spaced string is a fixed point of collapsing: the pass is idempotent. */
  lemma {:induction false} CollapseFixesSingleSpaced(s: string)
    requires SingleSpaced(s)
    ensures CollapseSpaces(s) == s
    decreases |s|
  {
    if s != [] {
      SingleSpacedTail(s);
      CollapseFixesSingleSpaced(s[1..]);
      if IsSpace(s[0]) {
        TrimStartOfSingleSpace(s);
      }
      assert [s[0]] + s[1..] == s;
    }
  }

  /** A run of white space in front of text that starts with something else trims away exactly. */
  lemma {:induction false} TrimStartOfSpaceRun(w: string, y: string)
    requires AllSpace(w)
    requires y == [] || !IsSpace(y[0])
    ensures TrimStart(w + y) == y
    decreases |w|
  {
    if w == [] {
      assert w + y == y;
    } else {
      assert (w + y)[0] == w[0] && (w + y)[1..] == w[1..] + y;
      TrimStartOfSpaceRun(w[1..], y);
    }
  }

  /** Trimming the front of text that is not all white space never reaches what follows it. */
  lemma {:induction false} TrimStartKeepsRest(x: string, z: string)
    requires x != [] && !IsSpace(x[|x| - 1])
    ensures TrimStart(x + z) == TrimStart(x) + z
    decreases |x|
  {
    assert (x + z)[0] == x[0];
    if IsSpace(x[0]) {
      assert (x + z)[1..] == x[1..] + z;
      TrimStartKeepsRest(x[1..], z);
    }
  }

  /**
   * A run of white space between two words becomes exactly one space: collapsing `x + w + y`
   * collapses `x` and `y` and puts a single space between them.
   */
  lemma {:induction false} CollapseRunBetween(x: string, w: string, y: string)
    requires w != [] && AllSpace(w)
    requires x == [] || !IsSpace(x[|x| - 1])
    requires y == [] || !IsSpace(y[0])
    ensures CollapseSpaces(x + w + y) == CollapseSpaces(x) + " " + CollapseSpaces(y)
    decreases |x|
  {
    if x == [] {
      assert x + w + y == w + y;
      TrimStartOfSpaceRun(w, y);
      CollapseAtSpace(w + y);
    } else if IsSpace(x[0]) {
      var tx := TrimStart(x);
      TrimmedFrontKeepsEnd(x);
      CollapseRunBetween(tx, w, y);
      CollapseRunAfterSpace(x, tx, w, y);
    } else {
      CollapseRunBetween(x[1..], w, y);
      CollapseRunAfterWord(x, w, y);
    }
  }

  /** The step of `CollapseRunBetween` for a text that starts with white space. */
  lemma CollapseRunAfterSpace(x: string, tx: string, w: string, y: string)
    requires x != [] && IsSpace(x[0]) && !IsSpace(x[|x| - 1]) && tx == TrimStart(x)
    requires CollapseSpaces(tx + w + y) == CollapseSpaces(tx) + " " + CollapseSpaces(y)
    ensures CollapseSpaces(x + w + y) == CollapseSpaces(x) + " " + CollapseSpaces(y)
  {
    FrontSplit(x, w, y);
    ConcatAssoc(x, w, y);
    TrimStartKeepsRest(x, w + y);
    ConcatAssoc(tx, w, y);
    CollapseAtSpace(x + w + y);
    CollapseAtSpace(x);
    SpaceJoinAssoc([' '], CollapseSpaces(tx), CollapseSpaces(y));
  }

  /** The step of `CollapseRunBetween` for a text that starts with a word character. */
  lemma CollapseRunAfterWord(x: string, w: string, y: string)
    requires x != [] && !IsSpace(x[0])
    requires CollapseSpaces(x[1..] + w + y) == CollapseSpaces(x[1..]) + " " + CollapseSpaces(y)
    ensures CollapseSpaces(x + w + y) == CollapseSpaces(x) + " " + CollapseSpaces(y)
  {
    FrontSplit(x, w, y);
    CollapseAtWord(x + w + y);
    CollapseAtWord(x);
    SpaceJoinAssoc([x[0]], CollapseSpaces(x[1..]), CollapseSpaces(y));
  }

  lemma CollapseAtSpace(s: string)
    requires s != [] && IsSpace(s[0])
    ensures CollapseSpaces(s) == [' '] + CollapseSpaces(TrimStart(s))
  {
  }

  lemma CollapseAtWord(s: string)
    requires s != [] && !IsSpace(s[0])
    ensures CollapseSpaces(s) == [s[0]] + CollapseSpaces(s[1..])
  {
  }

  /** How a text of three parts starts, and what follows its first character. */
  lemma FrontSplit(x: string, w: string, y: string)
    requires x != []
    ensures (x + w + y)[0] == x[0] && (x + w + y)[1..] == x[1..] + w + y
  {
  }

  lemma ConcatAssoc(a: string, b: string, c: string)
    ensures a + b + c == a + (b + c)
  {
  }

  /** Trimming the front of text that does not end in white space leaves a text that ends the same way. */
  lemma {:induction false} TrimmedFrontKeepsEnd(x: string)
    requires x != [] && !IsSpace(x[|x| - 1])
    ensures var tx := TrimStart(x); tx != [] && tx[|tx| - 1] == x[|x| - 1] && |tx| <= |x|
    decreases |x|
  {
    if IsSpace(x[0]) {
      assert |x| >= 2;
      var y := x[1..];
      assert y[|y| - 1] == x[|x| - 1];
      TrimmedFrontKeepsEnd(y);
    }
  }

  lemma SpaceJoinAssoc(c: string, a: string, b: string)
    ensures c + (a + " " + b) == (c + a) + " " + b
  {
  }

  lemma SingleSpacedTail(s: string)
    requires s != [] && SingleSpaced(s)
    ensures SingleSpaced(s[1..])
  {
    assert forall i :: 0 <= i < |s| - 1 ==> s[1..][i] == s[i + 1];
  }

  /** In a single-spaced string a leading white-space character is a space with no white space after it. */
  lemma TrimStartOfSingleSpace(s: string)
    requires s != [] && SingleSpaced(s) && IsSpace(s[0])
    ensures s[0] == ' ' && TrimStart(s) == s[1..]
  {
    assert |s| > 1 ==> !IsSpace(s[1]);
    var t := TrimStart(s[1..]);
    if s[1..] != [] { assert t == s[1..]; }
  }

  /** Normalising twice is normalising once. */
  lemma NormalizeIdempotent(s: string)
    ensures Normalize(Normalize(s)) == Normalize(s)
  {
    var n := Normalize(s);
    CollapseFixesSingleSpaced(n);
    TrimmedIsFixed(n);
  }

  // ---------------------------------------------------------------------------
  // Lemmas about literal replacement

  /** No character of `a` occurs in `b`. */
  predicate Disjoint(a: string, b: string) {
    forall c :: c in a ==> c !in b
  }

  /** Replacing a pattern that does not occur changes nothing. */
  lemma {:induction false} ReplaceAbsentIsIdentity(s: string, p: string, rep: string)
    requires |p| > 0 && !Occurs(s, p)
    ensures ReplaceAll(s, p, rep) == s
    decreases |s|
  {
    if s != [] {
      ReplaceAbsentIsIdentity(s[1..], p, rep);
    }
  }

  /** A prefix of the output that avoids the replacement's characters was copied from the input. */
  lemma {:induction false} CopiedPrefix(t: string, w: string, p: string, rep: string)
    requires |p| > 0 && |rep| > 0 && Disjoint(w, rep)
    requires StartsWith(ReplaceAll(t, p, rep), w)
    ensures StartsWith(t, w)
    decreases |w|
  {
    if w != [] {
      var out := ReplaceAll(t, p, rep);
      assert t != [];
      assert w[0] in w && w[0] == out[0];
      assert !StartsWith(t, p);
      assert out == [t[0]] + ReplaceAll(t[1..], p, rep);
      assert w[1..] == out[1..|w|];
      assert Disjoint(w[1..], rep) by {
        forall c | c in w[1..] ensures c !in rep { assert c in w; }
      }
      CopiedPrefix(t[1..], w[1..], p, rep);
      assert t[..|w|] == [t[0]] + t[1..][..|w| - 1];
    }
  }

  /** A pattern cannot start inside a text whose characters are all foreign to it. */
  lemma {:induction false} ForeignPrefixAddsNoOccurrence(u: string, x: string, q: string)
    requires |q| > 0 && Disjoint(u, q) && !Occurs(x, q)
    ensures !Occurs(u + x, q)
    decreases |u|
  {
    if u == [] {
      assert u + x == x;
    } else {
      assert u[0] in u;
      assert (u + x)[0] == u[0];
      assert !StartsWith(u + x, q);
      assert Disjoint(u[1..], q) by {
        forall c | c in u[1..] ensures c !in q { assert c in u; }
      }
      ForeignPrefixAddsNoOccurrence(u[1..], x, q);
      assert (u + x)[1..] == u[1..] + x;
    }
  }

  /**
   * After `ReplaceAll(s, p, rep)` no occurrence of `q` is left, either because `q` is the pattern
   * just replaced, or because `q` did not occur before, provided the replacement text shares
   * no character with `q` and is not empty.
   */
  lemma {:induction false} ReplaceLeavesNoOccurrence(s: string, q: string, p: string, rep: string)
    requires |p| > 0 && |rep| > 0 && |q| > 0 && Disjoint(rep, q)
    requires q == p || !Occurs(s, q)
    ensures !Occurs(ReplaceAll(s, p, rep), q)
    decreases |s|
  {
    if s == [] {
    } else if StartsWith(s, p) {
      var rest := s[|p|..];
      if q != p {
        if Occurs(rest, q) { OccursInSuffix(s, q, |p|); }
      }
      ReplaceLeavesNoOccurrence(rest, q, p, rep);
      ForeignPrefixAddsNoOccurrence(rep, ReplaceAll(rest, p, rep), q);
    } else {
      var x := ReplaceAll(s[1..], p, rep);
      ReplaceLeavesNoOccurrence(s[1..], q, p, rep);
      var out := [s[0]] + x;
      assert !StartsWith(out, q) by {
        if StartsWith(out, q) {
          assert s[0] == q[0];
          assert Disjoint(q[1..], rep) by {
            forall c | c in q[1..] ensures c !in rep { assert c in q; }
          }
          assert StartsWith(x, q[1..]) by { assert x[..|q| - 1] == out[1..|q|]; }
          CopiedPrefix(s[1..], q[1..], p, rep);
        }
      }
      assert out[1..] == x;
    }
  }

  /** A pattern with a character the text lacks does not occur in it. */
  lemma {:induction false} MissingCharMeansAbsent(s: string, p: string, c: char)
    requires c in p && c !in s
    ensures !Occurs(s, p)
    decreases |s|
  {
    if |p| <= |s| {
      var i :| 0 <= i < |p| && p[i] == c;
      assert s[i] in s;
      assert s[..|p|][i] != p[i];
    }
    if s != [] {
      MissingCharMeansAbsent(s[1..], p, c);
    }
  }

  /** Text without the pattern's first character passes through a replacement untouched. */
  lemma {:induction false} ReplaceSkipsForeignPrefix(a: string, t: string, p: string, rep: string)
    requires |p| > 0 && p[0] !in a
    ensures ReplaceAll(a + t, p, rep) == a + ReplaceAll(t, p, rep)
    decreases |a|
  {
    if a == [] {
      assert a + t == t;
    } else {
      assert !StartsWith(a + t, p) by { assert (a + t)[0] == a[0]; }
      assert (a + t)[1..] == a[1..] + t;
      ReplaceSkipsForeignPrefix(a[1..], t, p, rep);
    }
  }

  /** An occurrence at the front is replaced and the scan resumes after it. */
  lemma ReplaceHitsPrefix(t: string, p: string, rep: string)
    requires |p| > 0
    ensures ReplaceAll(p + t, p, rep) == rep + ReplaceAll(t, p, rep)
  {
    assert (p + t)[..|p|] == p;
    assert (p + t)[|p|..] == t;
  }

  /** A pattern with a character the text lacks is not replaced at all. */
  lemma ReplaceMissingIsIdentity(s: string, p: string, rep: string, c: char)
    requires |p| > 0 && c in p && c !in s
    ensures ReplaceAll(s, p, rep) == s
  {
    MissingCharMeansAbsent(s, p, c);
    ReplaceAbsentIsIdentity(s, p, rep);
  }

  /** Taking off the first character and putting it back in front of a concatenation. */
  lemma ConsAppend(a: string, b: string)
    requires a != []
    ensures [a[0]] + (a[1..] + b) == a + b
  {
    assert a == [a[0]] + a[1..];
  }

  /** A text that begins with `p` up to letter case starts with `p` ignoring case, whatever follows. */
  lemma StartsWithIgnoringCaseOfPrefix(x: string, y: string, p: string)
    requires SameIgnoringCase(x, p)
    ensures StartsWithIgnoringCase(x + y, p)
  {
    assert (x + y)[..|x|] == x;
  }

  /** The least position where `p` starts, ignoring case, is what `IndexOfIgnoringCase` finds. */
  lemma IndexOfIgnoringCaseAt(s: string, p: string, k: nat)
    requires k + |p| <= |s| && StartsWithIgnoringCase(s[k..], p)
    requires forall j :: 0 <= j < k ==> !StartsWithIgnoringCase(s[j..], p)
    ensures IndexOfIgnoringCase(s, p) == Some(k)
  {
  }

  /** A mismatch at position `i` rules out a prefix match. */
  lemma MismatchAt(s: string, p: string, i: nat)
    requires i < |p| && i < |s| && s[i] != p[i]
    ensures !StartsWith(s, p)
  {
    if |p| <= |s| {
      assert s[..|p|][i] == s[i];
    }
  }

  /** A text that agrees with a pattern in its first character starts with it exactly when its tail starts with the pattern's tail. */
  lemma StartsWithAfterFirst(s: string, p: string)
    requires s != [] && p != [] && s[0] == p[0]
    ensures StartsWith(s, p) <==> StartsWith(s[1..], p[1..])
  {
    if |p| <= |s| {
      assert s[..|p|] == [s[0]] + s[1..][..|p| - 1];
      assert p == [p[0]] + p[1..];
    }
  }

  /** A text that starts with the pattern's first character but not with the whole pattern, and
      holds that character nowhere else, is not changed by the replacement. */
  lemma ReplaceMissesLoneStart(s: string, p: string, rep: string)
    requires |p| > 0 && s != [] && s[0] == p[0] && p[0] !in s[1..] && !StartsWith(s, p)
    ensures ReplaceAll(s, p, rep) == s
  {
    ReplaceMissingIsIdentity(s[1..], p, rep, p[0]);
    assert [s[0]] + s[1..] == s;
  }

  /** `RemoveFirst` cuts out exactly the leftmost occurrence. */
  lemma RemoveFirstAt(s: string, p: string, i: nat)
    requires i + |p| <= |s| && StartsWith(s[i..], p)
    requires forall j :: 0 <= j < i ==> !StartsWith(s[j..], p)
    ensures RemoveFirst(s, p) == s[..i] + s[i + |p|..]
  {
    assert IndexOf(s, p) == Some(i);
  }

  /** A text that starts with the pattern loses just that prefix. */
  lemma RemoveFirstOfPrefix(p: string, t: string)
    ensures RemoveFirst(p + t, p) == t
  {
    assert (p + t)[0..] == p + t && (p + t)[..|p|] == p;
    RemoveFirstAt(p + t, p, 0);
    assert (p + t)[|p|..] == t;
  }

  /** The first `c` in `x + [c] + y`, when `x` lacks `c`, is right after `x`. */
  lemma IndexOfCharAfter(x: string, c: char, y: string)
    requires c !in x
    ensures IndexOfChar(x + [c] + y, c) == Some(|x|)
  {
    var s := x + [c] + y;
    assert s[|x|] == c;
    assert forall j :: 0 <= j < |x| ==> s[j] == x[j];
  }

  /** Trimming adds no character. */
  lemma TrimAddsNothing(s: string, c: char)
    requires c !in s
    ensures c !in Trim(s)
  {
    var a := TrimStart(s);
    var t := Trim(s);
    var k := |s| - |a|;
    forall i | 0 <= i < |t| ensures t[i] != c { assert t[i] == a[i] == s[k + i]; }
  }

  /** A text occurs in anything built around it. */
  lemma OccursInMiddle(a: string, p: string, b: string)
    ensures Occurs(a + p + b, p)
  {
    var s := a + p + b;
    assert s[|a|..] == p + b && (p + b)[..|p|] == p;
    OccursInSuffix(s, p, |a|);
  }

  // ---------------------------------------------------------------------------
  // Lines

  /** `lines.join('\n')`: the lines with a newline between each two. */
  function JoinLines(lines: seq<string>): string
    decreases |lines|
  {
    if lines == [] then ""
    else if |lines| == 1 then lines[0]
    else lines[0] + "\n" + JoinLines(lines[1..])
  }

  /** Every line but the first and the last appears in the joined text between two newlines. */
  lemma {:induction false} InnerLineOccurs(lines: seq<string>, i: nat)
    requires 0 < i < |lines| - 1
    ensures Occurs(JoinLines(lines), "\n" + lines[i] + "\n")
    decreases |lines|
  {
    var rest := JoinLines(lines[1..]);
    if i == 1 {
      assert rest == lines[1] + "\n" + JoinLines(lines[2..]) by {
        assert lines[1..][1..] == lines[2..];
      }
      assert JoinLines(lines) == lines[0] + ("\n" + lines[1] + "\n") + JoinLines(lines[2..]);
      OccursInMiddle(lines[0], "\n" + lines[1] + "\n", JoinLines(lines[2..]));
    } else {
      InnerLineOccurs(lines[1..], i - 1);
      assert JoinLines(lines)[|lines[0]| + 1..] == rest;
      OccursInSuffix(JoinLines(lines), "\n" + lines[i] + "\n", |lines[0]| + 1);
    }
  }
}
