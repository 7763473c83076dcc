/**
 * `HostPort`: a validated "host:port" address. The record's compact
 * constructor checks the host and the port range; `parse` splits at the
 * last ':' and trims both halves.
 */
module HostPorts {
  import opened Wrappers
  import opened JavaText

  datatype HostPort = HostPort(host: string, port: int)

  /** What the record constructor enforces. */
  predicate ValidHostPort(a: HostPort) {
    !IsBlank(a.host) && 1 <= a.port <= 65535
  }

  /** `new HostPort(host, port)`. */
  function NewHostPort(host: Option<string>, port: int): (r: Result<HostPort>)
    ensures host.None? ==> r == Err(NullPointer)
    ensures host.Some? ==> (r.Ok? <==> !IsBlank(host.value) && 1 <= port <= 65535)
    ensures host.Some? && r.Err? ==> r.error == IllegalArgument
    ensures r.Ok? ==> r.value == HostPort(host.value, port) && ValidHostPort(r.value)
  {
    if host.None? then Err(NullPointer)
    else if IsBlank(host.value) then Err(IllegalArgument)
    else if port <= 0 || port > 65535 then Err(IllegalArgument)
    else Ok(HostPort(host.value, port))
  }

  /** `HostPort.parse(s)`: every failure is an IllegalArgumentException. */
  function Parse(s: Option<string>): (r: Result<HostPort>)
    ensures r.Err? ==> r.error == IllegalArgument
    ensures r.Ok? ==> ValidHostPort(r.value)
    ensures s.None? || Trim(s.value) == [] ==> r.Err?
    ensures s.Some? && LastIndexOfChar(Trim(s.value), ':') <= 0 ==> r.Err?
  {
    if s.None? || Trim(s.value) == [] then Err(IllegalArgument)
    else
      var v := Trim(s.value);
      var idx := LastIndexOfChar(v, ':');
      if idx <= 0 || idx == |v| - 1 then Err(IllegalArgument)
      else
        match ParseInt(Trim(v[idx + 1..]))
        case None => Err(IllegalArgument)
        case Some(port) => NewHostPort(Some(Trim(v[..idx])), port)
  }

  /**
   * `parse` of a trimmed, non-blank host, ':' and a decimal numeral gives
   * that host and port. The host may itself contain ':' (the cut is at the
   * last one).
   */
  lemma ParseJoin(h: string, d: string, port: int)
    requires Trim(h) == h && !IsBlank(h) && d != [] && AllDigits(d)
    requires ParseInt(d) == Some(port) && 1 <= port <= 65535
    ensures Parse(Some(h + [':'] + d)) == Ok(HostPort(h, port))
  {
    JoinFacts(h, d, port);
    ParseSplit(h + [':'] + d, h, d, port);
  }

  /** The facts `ParseSplit` needs, for a host joined by ':' to a numeral. */
  lemma JoinFacts(h: string, d: string, port: int)
    requires Trim(h) == h && !IsBlank(h) && d != [] && AllDigits(d)
    requires ParseInt(d) == Some(port) && 1 <= port <= 65535
    ensures var v := h + [':'] + d;
      Trim(v) == v && 0 < |h| < |v| - 1 && LastIndexOfChar(v, ':') == |h|
      && v[..|h|] == h && v[|h| + 1..] == d
      && ParseInt(Trim(d)) == Some(port) && ValidHostPort(HostPort(Trim(h), port))
  {
    NotBlankNotEmpty(h);
    TrimmedNumeral(d, port);
    JoinPieces(h, d);
  }

  lemma NotBlankNotEmpty(s: string)
    requires !IsBlank(s)
    ensures s != []
  {
  }

  lemma TrimmedNumeral(d: string, port: int)
    requires d != [] && AllDigits(d) && ParseInt(d) == Some(port)
    ensures ParseInt(Trim(d)) == Some(port)
  {
    DigitsTrimmed(d);
  }

  /** Where `parse` cuts a trimmed host joined by ':' to a numeral. */
  lemma JoinPieces(h: string, d: string)
    requires Trim(h) == h && h != [] && d != [] && AllDigits(d)
    ensures var v := h + [':'] + d;
      && Trim(v) == v && 0 < |h| < |v| - 1 && LastIndexOfChar(v, ':') == |h|
      && v[..|h|] == h && v[|h| + 1..] == d && Trim(d) == d
  {
    JoinTrimmed(h, d);
    JoinLastColon(h, d);
    JoinSlices(h, d);
    DigitsTrimmed(d);
  }

  lemma JoinTrimmed(h: string, d: string)
    requires Trim(h) == h && h != [] && d != [] && AllDigits(d)
    ensures Trim(h + [':'] + d) == h + [':'] + d
  {
    assert IsAsciiDigit(d[|d| - 1]);
    assert !IsTrimmable(h[0]) by { assert Trim(h) == h; }
    TrimmedJoin(h + [':'], d);
  }

  lemma JoinLastColon(h: string, d: string)
    requires AllDigits(d)
    ensures LastIndexOfChar(h + [':'] + d, ':') == |h|
  {
    DigitsAfterColon(h, d);
    LastColon(h + [':'] + d, |h|);
  }

  lemma JoinSlices(h: string, d: string)
    ensures var v := h + [':'] + d; v[..|h|] == h && v[|h| + 1..] == d
  {
  }

  lemma DigitsTrimmed(d: string)
    requires d != [] && AllDigits(d)
    ensures Trim(d) == d
  {
    assert IsAsciiDigit(d[0]) && IsAsciiDigit(d[|d| - 1]);
    TrimOfTrimmed(d);
  }

  /** `parse` of a trimmed text whose last ':' separates a host from a port. */
  lemma ParseSplit(v: string, h: string, d: string, port: int)
    requires Trim(v) == v && 0 < |h| < |v| - 1 && LastIndexOfChar(v, ':') == |h|
    requires v[..|h|] == h && v[|h| + 1..] == d
    requires ParseInt(Trim(d)) == Some(port) && ValidHostPort(HostPort(Trim(h), port))
    ensures Parse(Some(v)) == Ok(HostPort(Trim(h), port))
  {
  }

  lemma DigitsAfterColon(h: string, d: string)
    requires AllDigits(d)
    ensures var v := h + [':'] + d; v[|h|] == ':' && forall i :: |h| < i < |v| ==> v[i] != ':'
  {
    var v := h + [':'] + d;
    forall i | |h| < i < |v| ensures v[i] != ':' {
      assert v[i] == d[i - |h| - 1];
      assert IsAsciiDigit(d[i - |h| - 1]);
    }
  }

  lemma TrimmedJoin(a: string, b: string)
    requires a != [] && b != [] && !IsTrimmable(a[0]) && !IsTrimmable(b[|b| - 1])
    ensures Trim(a + b) == a + b
  {
    var v := a + b;
    assert v[0] == a[0] && v[|v| - 1] == b[|b| - 1];
    TrimOfTrimmed(v);
  }

  /** The last ':' is the one after which no ':' follows. */
  lemma LastColon(v: string, k: nat)
    requires k < |v| && v[k] == ':' && forall i :: k < i < |v| ==> v[i] != ':'
    ensures LastIndexOfChar(v, ':') == k
  {
  }

  /** An address without a ':' before its last character is rejected. */
  lemma ParseNeedsHost(s: string)
    requires Trim(s) != [] && Trim(s)[0] == ':'
    requires forall i :: 0 < i < |Trim(s)| ==> Trim(s)[i] != ':'
    ensures Parse(Some(s)) == Err(IllegalArgument)
  {
    LastColon(Trim(s), 0);
  }
}
