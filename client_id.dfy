/** `getClientId`: the key the rate limiter counts requests under. */
module ClientIdentity {
  import opened Wrappers
  import opened Text

  /** The `x-forwarded-for` request header: absent, a string, or an array of
      strings. Node.js joins repeats of this header into one comma-separated
      string; the array form is the case the code guards against anyway. */
  datatype ForwardedHeader = Absent | Single(value: string) | Multiple(values: seq<string>)

  /** `s.split(',')[0]`: the text before the first comma, or all of `s`. */
  function FirstField(s: string): (r: string)
    ensures |r| <= |s| && r == s[..|r|]
    ensures ',' !in r
    ensures |r| == |s| || s[|r|] == ','
  {
    if s == [] || s[0] == ',' then "" else [s[0]] + FirstField(s[1..])
  }

  /** The header text the code reads: the first element of a non-empty array,
      or a non-empty string; None when neither is there. */
  function HeaderText(h: ForwardedHeader): Option<string> {
    match h
    case Multiple(vs) => if |vs| > 0 then Some(vs[0]) else None
    case Single(s) => if |s| > 0 then Some(s) else None
    case Absent => None
  }

  /** The trimmed first field of `v` is `v`'s text between leading
      whitespace and the whitespace that precedes the first comma or the end. */
  ghost predicate IsTrimmedFirstField(v: string, r: string) {
    && ',' !in r
    && (r == [] || (!IsWhitespace(r[0]) && !IsWhitespace(r[|r| - 1])))
    && exists i :: OccursAt(v, r, i) && AllWhitespace(v[..i])
                   && i + |r| <= |FirstField(v)| && AllWhitespace(v[i + |r|..|FirstField(v)|])
  }

  lemma TrimFirstField(v: string)
    ensures IsTrimmedFirstField(v, Trim(FirstField(v)))
  {
    var f := FirstField(v);
    TrimShape(f);
    TrimmedPiece(v, f, Trim(f), LeadingWhitespace(f));
  }

  /** A whitespace-free-ended piece of the first field, with only whitespace
      around it inside that field, is its trimmed text. */
  lemma TrimmedPiece(v: string, f: string, r: string, i: nat)
    requires f == FirstField(v) && TrimmedAt(f, r, i)
    ensures IsTrimmedFirstField(v, r)
  {
    FieldInValue(v, f, r, i);
    SliceLacks(f, i, i + |r|, ',');
    assert OccursAt(v, r, i) && AllWhitespace(v[..i]) && i + |r| <= |f| && AllWhitespace(v[i + |r|..|f|]);
  }

  /** A character missing from `s` is missing from every slice of it. */
  lemma SliceLacks(s: string, i: nat, j: nat, c: char)
    requires i <= j <= |s| && c !in s
    ensures c !in s[i..j]
  {
    assert forall k :: 0 <= k < j - i ==> s[i..j][k] == s[i + k];
  }

  /** A piece of the prefix `f` of `v` sits at the same place in `v`. */
  lemma FieldInValue(v: string, f: string, r: string, i: nat)
    requires |f| <= |v| && f == v[..|f|]
    requires i + |r| <= |f| && f[i..i + |r|] == r
    requires AllWhitespace(f[..i]) && AllWhitespace(f[i + |r|..])
    ensures OccursAt(v, r, i) && AllWhitespace(v[..i]) && AllWhitespace(v[i + |r|..|f|])
  {
    SliceOfPrefix(v, |f|, i, i + |r|);
  }

  /** Slices of the prefix `v[..n]` are slices of `v`. */
  lemma SliceOfPrefix(v: string, n: nat, i: nat, j: nat)
    requires i <= j <= n <= |v|
    ensures v[..n][i..j] == v[i..j] && v[..n][..i] == v[..i] && v[..n][j..] == v[j..n]
  {
  }

  /** The client id for a request with forwarded header `h` and socket peer
      address `remote` (`req.socket?.remoteAddress`). */
  function ClientId(h: ForwardedHeader, remote: Option<string>): (r: string)
    // From the header: its first comma-separated field, whitespace around it removed.
    ensures HeaderText(h).Some? ==> IsTrimmedFirstField(HeaderText(h).value, r)
    // Otherwise: a non-empty peer address as it is, else the literal 'unknown'.
    ensures HeaderText(h).None? && remote.Some? && remote.value != "" ==> r == remote.value
    ensures HeaderText(h).None? && (remote.None? || remote.value == "") ==> r == "unknown"
  {
    match HeaderText(h)
    case Some(v) =>
      TrimFirstField(v);
      Trim(FirstField(v))
    case None =>
      if remote.Some? && remote.value != "" then remote.value else "unknown"
  }

  /** The string form of the header and the array form whose first element
      is that string give the same client id. */
  lemma SingleAndArrayAgree(s: string, rest: seq<string>, remote: Option<string>)
    requires s != ""
    ensures ClientId(Single(s), remote) == ClientId(Multiple([s] + rest), remote)
  {
  }
}
