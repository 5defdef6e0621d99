/** A JSON text layer standing in for `JSON.stringify`/`JSON.parse` on the
    values this app stores: string literals with `\"` and `\\` escapes,
    integer literals, and literal punctuation. Every reader returns the value
    and the unread remainder, and is proved to undo its writer. */
module Json {
  import opened Wrappers
  import opened JsValues

  /** Consumes the literal `p` at the front of `t`. */
  function Expect(p: string, t: string): (r: Option<string>)
    ensures r.Some? <==> |p| <= |t| && t[..|p|] == p
    ensures r.Some? ==> r.value == t[|p|..]
  {
    if |p| <= |t| && t[..|p|] == p then Some(t[|p|..]) else None
  }

  lemma ExpectPrefix(p: string, rest: string)
    ensures Expect(p, p + rest) == Some(rest)
  {
    assert (p + rest)[..|p|] == p;
    assert (p + rest)[|p|..] == rest;
  }

  lemma ExpectMismatch(p: string, t: string, i: nat)
    requires i < |p| && i < |t| && p[i] != t[i]
    ensures Expect(p, t).None?
  {
  }

  // ----- strings -----

  function EscapeChar(ch: char): string
  {
    if ch == '"' || ch == '\\' then ['\\', ch] else [ch]
  }

  function Escape(s: string): string
  {
    if s == [] then [] else EscapeChar(s[0]) + Escape(s[1..])
  }

  function EncodeString(s: string): (t: string)
    ensures |t| >= 2 && t[0] == '"'
  {
    "\"" + Escape(s) + "\""
  }

  /** Reads the characters of a string literal up to its closing quote. */
  function ParseStringBody(t: string): (r: Option<(string, string)>)
    ensures r.Some? ==> |r.value.1| < |t|
    decreases |t|
  {
    if t == [] then None
    else if t[0] == '"' then Some(("", t[1..]))
    else if t[0] == '\\' then
      if |t| < 2 then None
      else match ParseStringBody(t[2..])
        case None => None
        case Some((v, rest)) => Some(([t[1]] + v, rest))
    else match ParseStringBody(t[1..])
      case None => None
      case Some((v, rest)) => Some(([t[0]] + v, rest))
  }

  function ParseString(t: string): (r: Option<(string, string)>)
    ensures r.Some? ==> |r.value.1| < |t|
  {
    if |t| > 0 && t[0] == '"' then ParseStringBody(t[1..]) else None
  }

  /** Reading one escaped character and then the rest of a string body. */
  lemma BodyStep(c: char, u: string, v: string, rest: string)
    requires ParseStringBody(u) == Some((v, rest))
    ensures ParseStringBody(EscapeChar(c) + u) == Some(([c] + v, rest))
  {
    if c == '"' || c == '\\' {
      assert (['\\', c] + u)[2..] == u;
    } else {
      assert ([c] + u)[1..] == u;
    }
  }

  lemma EscapeUnfold(s: string, rest: string)
    requires s != []
    ensures Escape(s) + "\"" + rest == EscapeChar(s[0]) + (Escape(s[1..]) + "\"" + rest)
  {
  }

  lemma {:induction false} StringBodyRoundTrip(s: string, rest: string)
    ensures ParseStringBody(Escape(s) + "\"" + rest) == Some((s, rest))
  {
    if s == [] {
      assert Escape(s) + "\"" + rest == "\"" + rest;
      assert ("\"" + rest)[1..] == rest;
    } else {
      StringBodyRoundTrip(s[1..], rest);
      EscapeUnfold(s, rest);
      BodyStep(s[0], Escape(s[1..]) + "\"" + rest, s[1..], rest);
      assert [s[0]] + s[1..] == s;
    }
  }

  lemma StringRoundTrip(s: string, rest: string)
    ensures ParseString(EncodeString(s) + rest) == Some((s, rest))
  {
    var t := EncodeString(s) + rest;
    assert t[1..] == Escape(s) + "\"" + rest;
    StringBodyRoundTrip(s, rest);
  }

  // ----- integers -----

  /** The length of the run of digits at the front of `t`. */
  function DigitRun(t: string): (k: nat)
    ensures k <= |t| && AllDigits(t[..k])
    ensures k < |t| ==> !IsDigit(t[k])
  {
    if t == [] || !IsDigit(t[0]) then 0
    else
      var k' := DigitRun(t[1..]);
      assert t[..1 + k'] == [t[0]] + t[1..][..k'];
      1 + k'
  }

  function ParseNat(t: string): (r: Option<(nat, string)>)
    ensures r.Some? ==> |r.value.1| < |t|
  {
    var k := DigitRun(t);
    if k == 0 then None else Some((DigitsValue(t[..k]), t[k..]))
  }

  function ParseInt(t: string): (r: Option<(int, string)>)
    ensures r.Some? ==> |r.value.1| < |t|
  {
    if |t| > 0 && t[0] == '-' then
      match ParseNat(t[1..])
      case None => None
      case Some((n, rest)) => Some((-(n as int), rest))
    else
      match ParseNat(t)
      case None => None
      case Some((n, rest)) => Some((n as int, rest))
  }

  /** What may follow a number literal without being read as part of it. */
  predicate NotDigitStart(rest: string)
  {
    rest == [] || !IsDigit(rest[0])
  }

  lemma {:induction false} DigitRunOf(ds: string, rest: string)
    requires AllDigits(ds) && NotDigitStart(rest)
    ensures DigitRun(ds + rest) == |ds|
  {
    if ds != [] {
      assert (ds + rest)[1..] == ds[1..] + rest;
      DigitRunOf(ds[1..], rest);
    }
  }

  lemma NatRoundTrip(n: nat, rest: string)
    requires NotDigitStart(rest)
    ensures ParseNat(NatToDecimal(n) + rest) == Some((n, rest))
  {
    var ds := NatToDecimal(n);
    DigitRunOf(ds, rest);
    assert (ds + rest)[..|ds|] == ds;
    assert (ds + rest)[|ds|..] == rest;
    DecimalRoundTrip(n);
  }

  lemma NegativeRoundTrip(m: nat, rest: string)
    requires NotDigitStart(rest) && m > 0
    ensures ParseInt("-" + NatToDecimal(m) + rest) == Some((-(m as int), rest))
  {
    var u := NatToDecimal(m) + rest;
    assert ("-" + NatToDecimal(m) + rest)[1..] == u;
    NatRoundTrip(m, rest);
  }

  lemma NonNegativeRoundTrip(n: nat, rest: string)
    requires NotDigitStart(rest)
    ensures ParseInt(NatToDecimal(n) + rest) == Some((n, rest))
  {
    assert IsDigit((NatToDecimal(n) + rest)[0]);
    NatRoundTrip(n, rest);
  }

  lemma IntRoundTrip(n: int, rest: string)
    requires NotDigitStart(rest)
    ensures ParseInt(IntToDecimal(n) + rest) == Some((n, rest))
  {
    if n < 0 {
      NegativeRoundTrip(-n, rest);
    } else {
      NonNegativeRoundTrip(n, rest);
    }
  }
}
