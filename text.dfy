/** The JavaScript string built-ins the server route and the page use (`trim`, `startsWith`,
    `includes`), decimal rendering of counters and parsing of `msg-N` ids. */
module Text {
  import opened Wrappers

  /** The characters `String.prototype.trim` and the regular-expression class
      `\s` remove: ECMAScript WhiteSpace and LineTerminator code points. */
  predicate IsWhitespace(c: char) {
    || c == ' ' || c == '\t' || c == '\n' || c == '\U{B}' || c == '\U{C}' || c == '\r'
    || c == '\U{A0}' || c == '\U{1680}' || ('\U{2000}' <= c <= '\U{200A}')
    || c == '\U{2028}' || c == '\U{2029}' || c == '\U{202F}' || c == '\U{205F}'
    || c == '\U{3000}' || c == '\U{FEFF}'
  }

  /** Every character of `s` is whitespace. */
  predicate AllWhitespace(s: string) {
    s == [] || (IsWhitespace(s[0]) && AllWhitespace(s[1..]))
  }

  lemma {:induction false} AllWhitespaceAppend(a: string, b: string)
    requires AllWhitespace(a) && AllWhitespace(b)
    ensures AllWhitespace(a + b)
  {
    if a != [] {
      assert (a + b)[1..] == a[1..] + b;
      AllWhitespaceAppend(a[1..], b);
    } else {
      assert a + b == b;
    }
  }

  /** The number of whitespace characters `s` starts with. */
  function LeadingWhitespace(s: string): (n: nat)
    ensures n <= |s| && AllWhitespace(s[..n])
    ensures n == |s| || !IsWhitespace(s[n])
  {
    if s != [] && IsWhitespace(s[0]) then
      var m := LeadingWhitespace(s[1..]);
      assert s[..1 + m][1..] == s[1..][..m];
      1 + m
    else
      0
  }

  /** The length of `s` without the whitespace it ends with. */
  function TrailingStart(s: string): (n: nat)
    ensures n <= |s| && AllWhitespace(s[n..])
    ensures n == 0 || !IsWhitespace(s[n - 1])
  {
    if s != [] && IsWhitespace(s[|s| - 1]) then
      var n := TrailingStart(s[..|s| - 1]);
      assert s[..|s| - 1][n..] + [s[|s| - 1]] == s[n..];
      AllWhitespaceAppend(s[..|s| - 1][n..], [s[|s| - 1]]);
      n
    else
      |s|
  }

  /** `String.prototype.trimStart`. */
  function TrimStart(s: string): string {
    s[LeadingWhitespace(s)..]
  }

  /** `String.prototype.trim`. */
  function Trim(s: string): string {
    var t := TrimStart(s);
    t[..TrailingStart(t)]
  }

  /** What `trim` leaves: the text of `s` between its leading and its trailing
      whitespace, which neither starts nor ends with whitespace. */
  lemma TrimShape(s: string)
    ensures TrimmedAt(s, Trim(s), LeadingWhitespace(s))
  {
    TrimParts(s, LeadingWhitespace(s), TrimStart(s), TrailingStart(TrimStart(s)), Trim(s));
  }

  /** `r` is the text of `s` at position `i`, with only whitespace before and
      after it, and it neither starts nor ends with whitespace. */
  ghost predicate TrimmedAt(s: string, r: string, i: nat) {
    && i + |r| <= |s| && s[i..i + |r|] == r
    && AllWhitespace(s[..i]) && AllWhitespace(s[i + |r|..])
    && (r == [] || (!IsWhitespace(r[0]) && !IsWhitespace(r[|r| - 1])))
  }

  lemma TrimParts(s: string, i: nat, t: string, k: nat, r: string)
    requires i <= |s| && t == s[i..] && k <= |t| && r == t[..k]
    requires AllWhitespace(s[..i]) && AllWhitespace(t[k..])
    requires i == |s| || !IsWhitespace(s[i])
    requires k == 0 || !IsWhitespace(t[k - 1])
    ensures TrimmedAt(s, r, i)
  {
    SliceOfSuffix(s, i, k);
    if k > 0 {
      assert r[0] == s[i];
      assert r[|r| - 1] == t[k - 1];
    }
  }

  /** Slices of the suffix `s[i..]` are slices of `s`. */
  lemma SliceOfSuffix(s: string, i: nat, k: nat)
    requires i + k <= |s|
    ensures s[i..][..k] == s[i..i + k] && s[i..][k..] == s[i + k..]
  {
  }

  /** `s.startsWith(p)`. */
  predicate StartsWith(s: string, p: string) {
    |p| <= |s| && s[..|p|] == p
  }

  /** `p` occurs in `s` at position `i`. */
  predicate OccursAt(s: string, p: string, i: int) {
    0 <= i && i + |p| <= |s| && s[i..i + |p|] == p
  }

  /** `s.includes(p)`: true exactly when `p` occurs somewhere in `s`. */
  function Includes(s: string, p: string): (r: bool)
    ensures r <==> exists i :: OccursAt(s, p, i)
  {
    if |p| > |s| then
      false
    else if s[..|p|] == p then
      assert OccursAt(s, p, 0);
      true
    else
      var r := Includes(s[1..], p);
      if r then
        var i :| OccursAt(s[1..], p, i);
        assert s[1..][i..i + |p|] == s[i + 1..i + 1 + |p|];
        assert OccursAt(s, p, i + 1);
        true
      else
        forall i ensures !OccursAt(s, p, i) {
          if 0 < i && i + |p| <= |s| {
            assert s[1..][i - 1..i - 1 + |p|] == s[i..i + |p|];
            assert !OccursAt(s[1..], p, i - 1);
          }
        }
        false
  }

  predicate IsDigit(c: char) {
    '0' <= c <= '9'
  }

  predicate AllDigits(s: string) {
    forall i :: 0 <= i < |s| ==> IsDigit(s[i])
  }

  function DigitChar(d: nat): char
    requires d < 10
  {
    ('0' as int + d) as char
  }

  function DigitValue(c: char): nat
    requires IsDigit(c)
  {
    (c - '0') as nat
  }

  /** The decimal rendering JavaScript gives a non-negative integer in a
      template literal (`${n}`): digits only, no leading zero. */
  function Decimal(n: nat): (r: string)
    ensures |r| >= 1 && AllDigits(r)
    ensures r[0] == '0' ==> r == "0"
  {
    if n < 10 then [DigitChar(n)] else Decimal(n / 10) + [DigitChar(n % 10)]
  }

  /** The number a string of decimal digits denotes (`Number("007")` is 7). */
  function DigitsValue(s: string): nat
    requires AllDigits(s)
  {
    if s == [] then 0 else 10 * DigitsValue(s[..|s| - 1]) + DigitValue(s[|s| - 1])
  }

  /** Reading back a rendered number gives the number. */
  lemma {:induction false} DigitsValueOfDecimal(n: nat)
    ensures DigitsValue(Decimal(n)) == n
  {
    if n >= 10 {
      var s := Decimal(n);
      assert s[..|s| - 1] == Decimal(n / 10);
      assert DigitValue(s[|s| - 1]) == n % 10;
      DigitsValueOfDecimal(n / 10);
    }
  }

  const IdPrefix := "msg-"

  /** The id `createId` renders from counter value `n`: `msg-${n}`. */
  function MsgId(n: nat): string {
    IdPrefix + Decimal(n)
  }

  /** The regular expression `^msg-(\d+)$` followed by `Number(match[1])`:
      the N of an id of the form `msg-N`, or None. */
  function ParseMsgId(id: string): (r: Option<nat>)
    ensures r.Some? <==> |id| > |IdPrefix| && StartsWith(id, IdPrefix) && AllDigits(id[|IdPrefix|..])
  {
    if |id| > |IdPrefix| && StartsWith(id, IdPrefix) && AllDigits(id[|IdPrefix|..]) then
      Some(DigitsValue(id[|IdPrefix|..]))
    else
      None
  }

  /** Parsing an id that `createId` rendered gives back its counter value. */
  lemma MsgIdRoundTrip(n: nat)
    ensures ParseMsgId(MsgId(n)) == Some(n)
  {
    assert MsgId(n)[|IdPrefix|..] == Decimal(n);
    DigitsValueOfDecimal(n);
  }

  /** Distinct counter values give distinct ids. */
  lemma MsgIdInjective(a: nat, b: nat)
    ensures MsgId(a) == MsgId(b) ==> a == b
  {
    MsgIdRoundTrip(a);
    MsgIdRoundTrip(b);
  }
}
