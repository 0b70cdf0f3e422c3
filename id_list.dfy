/**
 * The identifier listing returned by the mail server's SEARCH command: a byte
 * string of whitespace-separated decimal numbers, split on whitespace and turned
 * into integers one token at a time (Mailbox._get_mails_ids_from_server).
 */
module IdList {
  import opened Wrappers
  import opened ByteString

  const Space: byte := 32
  const Plus: byte := 43
  const Minus: byte := 45
  const Zero: byte := 48

  /** ASCII whitespace as `bytes.split()` with no separator understands it: space, \t, \n, \v, \f, \r. */
  predicate IsSpace(b: byte) {
    b == Space || 9 <= b <= 13
  }

  predicate IsDigit(b: byte) {
    Zero <= b <= 57
  }

  /** A token left by the split: non-empty and free of whitespace. */
  predicate IsToken(t: seq<byte>) {
    |t| > 0 && forall k :: 0 <= k < |t| ==> !IsSpace(t[k])
  }

  predicate AllDigits(d: seq<byte>) {
    forall k :: 0 <= k < |d| ==> IsDigit(d[k])
  }

  /** Length of the longest whitespace-free prefix of `s`. */
  function TokenLength(s: seq<byte>): (n: nat)
    ensures n <= |s|
    ensures forall k :: 0 <= k < n ==> !IsSpace(s[k])
    ensures n == |s| || IsSpace(s[n])
    decreases |s|
  {
    if s == [] || IsSpace(s[0]) then 0 else 1 + TokenLength(s[1..])
  }

  /** `bytes.split()`: the maximal whitespace-free runs of `s`, in order. */
  function Split(s: seq<byte>): (tokens: seq<seq<byte>>)
    ensures forall i :: 0 <= i < |tokens| ==> IsToken(tokens[i])
    decreases |s|
  {
    if s == [] then []
    else if IsSpace(s[0]) then Split(s[1..])
    else
      var n := TokenLength(s);
      [s[..n]] + Split(s[n..])
  }

  /** The bytes of `s` that are not whitespace, in order. */
  function NonSpace(s: seq<byte>): seq<byte>
    decreases |s|
  {
    if s == [] then []
    else (if IsSpace(s[0]) then [] else [s[0]]) + NonSpace(s[1..])
  }

  function Concat(ts: seq<seq<byte>>): seq<byte>
    decreases |ts|
  {
    if ts == [] then [] else ts[0] + Concat(ts[1..])
  }

  /** The numeric value of a run of decimal digits, most significant first. */
  function DigitsValue(d: seq<byte>): nat
    requires AllDigits(d)
    decreases |d|
  {
    if d == [] then 0 else DigitsValue(d[..|d| - 1]) * 10 + (d[|d| - 1] - Zero) as nat
  }

  /**
   * `int(token)` for one token of the split: an optional sign followed by one or
   * more ASCII digits; anything else raises ValueError, modelled as None.
   */
  function ParseInt(t: seq<byte>): Option<int> {
    if |t| > 0 && (t[0] == Plus || t[0] == Minus) then
      var digits := t[1..];
      if |digits| > 0 && AllDigits(digits) then
        Some(if t[0] == Minus then -(DigitsValue(digits) as int) else DigitsValue(digits))
      else None
    else if |t| > 0 && AllDigits(t) then Some(DigitsValue(t))
    else None
  }

  /** The list comprehension over the tokens: every token must parse, or the whole listing fails. */
  function ParseTokens(ts: seq<seq<byte>>): Option<seq<int>>
    decreases |ts|
  {
    if ts == [] then Some([])
    else
      match (ParseInt(ts[0]), ParseTokens(ts[1..]))
      case (Some(x), Some(rest)) => Some([x] + rest)
      case _ => None
  }

  /** The listing parses exactly when every token does, and then holds one number per token, in order. */
  lemma {:induction false} ParseTokensSpec(ts: seq<seq<byte>>)
    ensures var r := ParseTokens(ts);
      && (r.Some? <==> forall i :: 0 <= i < |ts| ==> ParseInt(ts[i]).Some?)
      && (r.Some? ==> |r.value| == |ts| && forall i :: 0 <= i < |ts| ==> ParseInt(ts[i]) == Some(r.value[i]))
    decreases |ts|
  {
    if ts != [] {
      ParseTokensSpec(ts[1..]);
      assert forall i :: 1 <= i < |ts| ==> ts[i] == ts[1..][i - 1];
    }
  }

  /** `_get_mails_ids_from_server` after the SEARCH call: split the data and convert each token. */
  function ParseIds(response: seq<byte>): Option<seq<int>> {
    ParseTokens(Split(response))
  }

  /** The decimal image of a message number, as a server writes it. */
  function Decimal(n: nat): (d: seq<byte>)
    ensures |d| > 0 && AllDigits(d)
    decreases n
  {
    if n < 10 then [(Zero as int + n) as byte]
    else Decimal(n / 10) + [(Zero as int + n % 10) as byte]
  }

  /** A SEARCH answer for `ids`: their decimal images separated by single spaces. */
  function Render(ids: seq<nat>): seq<byte>
    decreases |ids|
  {
    if ids == [] then []
    else if |ids| == 1 then Decimal(ids[0])
    else Decimal(ids[0]) + [Space] + Render(ids[1..])
  }

  function Images(ids: seq<nat>): (ts: seq<seq<byte>>)
    ensures |ts| == |ids|
    decreases |ids|
  {
    if ids == [] then [] else [Decimal(ids[0])] + Images(ids[1..])
  }

  /** Reading a decimal image gives back the number. */
  lemma {:induction false} DecimalValue(n: nat)
    ensures DigitsValue(Decimal(n)) == n
    decreases n
  {
    if n >= 10 {
      DecimalValue(n / 10);
      var d := Decimal(n);
      assert d[..|d| - 1] == Decimal(n / 10);
    }
  }

  /** `int()` reads back a decimal image, with or without a sign. */
  lemma ParseIntDecimal(n: nat)
    ensures ParseInt(Decimal(n)) == Some(n)
    ensures ParseInt([Plus] + Decimal(n)) == Some(n)
    ensures ParseInt([Minus] + Decimal(n)) == Some(-(n as int))
  {
    DecimalValue(n);
    assert ([Plus] + Decimal(n))[1..] == Decimal(n);
    assert ([Minus] + Decimal(n))[1..] == Decimal(n);
  }

  /** An empty token, a lone sign and a token with a non-digit are rejected. */
  lemma ParseIntRejects(t: seq<byte>, k: nat)
    requires k < |t| && !IsDigit(t[k]) && (k > 0 || (t[0] != Plus && t[0] != Minus))
    ensures ParseInt(t) == None
    ensures ParseInt([]) == None && ParseInt([Plus]) == None && ParseInt([Minus]) == None
  {
  }

  lemma {:induction false} TokenLengthOf(tok: seq<byte>, rest: seq<byte>)
    requires forall k :: 0 <= k < |tok| ==> !IsSpace(tok[k])
    requires rest == [] || IsSpace(rest[0])
    ensures TokenLength(tok + rest) == |tok|
    decreases |tok|
  {
    if tok != [] {
      assert (tok + rest)[1..] == tok[1..] + rest;
      TokenLengthOf(tok[1..], rest);
    } else {
      assert tok + rest == rest;
    }
  }

  /** A token followed by whitespace (or by nothing) is split off whole. */
  lemma SplitToken(tok: seq<byte>, rest: seq<byte>)
    requires IsToken(tok)
    requires rest == [] || IsSpace(rest[0])
    ensures Split(tok + rest) == [tok] + Split(rest)
  {
    TokenLengthOf(tok, rest);
    var s := tok + rest;
    assert s[..|tok|] == tok && s[|tok|..] == rest;
  }

  lemma {:induction false} SplitRender(ids: seq<nat>)
    ensures Split(Render(ids)) == Images(ids)
    decreases |ids|
  {
    if |ids| == 1 {
      SplitToken(Decimal(ids[0]), []);
      assert Decimal(ids[0]) + [] == Decimal(ids[0]);
    } else if |ids| > 1 {
      var tail := [Space] + Render(ids[1..]);
      assert Render(ids) == Decimal(ids[0]) + tail;
      SplitToken(Decimal(ids[0]), tail);
      assert tail[1..] == Render(ids[1..]);
      SplitRender(ids[1..]);
    }
  }

  lemma {:induction false} ParseImages(ids: seq<nat>)
    ensures ParseTokens(Images(ids)) == Some(ids)
    decreases |ids|
  {
    if ids != [] {
      ParseIntDecimal(ids[0]);
      ParseImages(ids[1..]);
      assert Images(ids)[1..] == Images(ids[1..]);
      assert [ids[0]] + ids[1..] == ids;
    }
  }

  /** Round trip: parsing a server's listing of `ids` yields exactly `ids`, in order. */
  lemma RenderParse(ids: seq<nat>)
    ensures ParseIds(Render(ids)) == Some(ids)
  {
    SplitRender(ids);
    ParseImages(ids);
  }

  lemma {:induction false} NonSpacePrefix(s: seq<byte>, n: nat)
    requires n <= |s|
    requires forall k :: 0 <= k < n ==> !IsSpace(s[k])
    ensures NonSpace(s) == s[..n] + NonSpace(s[n..])
    decreases n
  {
    if n > 0 {
      NonSpacePrefix(s[1..], n - 1);
      assert s[1..][n - 1..] == s[n..];
      assert s[..n] == [s[0]] + s[1..][..n - 1];
    }
  }

  /** The split loses nothing but whitespace: its tokens, joined, are the non-blank bytes in order. */
  lemma {:induction false} SplitKeepsNonSpace(s: seq<byte>)
    ensures Concat(Split(s)) == NonSpace(s)
    decreases |s|
  {
    if s == [] {
    } else if IsSpace(s[0]) {
      SplitKeepsNonSpace(s[1..]);
    } else {
      var n := TokenLength(s);
      var tokens := [s[..n]] + Split(s[n..]);
      assert tokens[1..] == Split(s[n..]);
      SplitKeepsNonSpace(s[n..]);
      NonSpacePrefix(s, n);
    }
  }
}
