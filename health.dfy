/** The pure part of HealthService.isHealthy: the indicator key derived from
    the destination URL and the up/down classification of the probe. The
    readiness flag, the decoding of the URL and the outcome of the HTTP
    request are parameters. */
module Health {
  import opened Common

  /** One left-to-right pass of `replace(/https?:\/\/|www\./g, "")`: at each
      position the first alternative that matches is removed ("https://"
      before "http://", since `s?` is greedy), otherwise one character is
      kept and the scan moves on. */
  function RemoveSchemes(s: string): (r: string)
    ensures |r| <= |s|
    decreases |s|
  {
    if s == [] then []
    else if StartsWith(s, "https://") then RemoveSchemes(s[8..])
    else if StartsWith(s, "http://") then RemoveSchemes(s[7..])
    else if StartsWith(s, "www.") then RemoveSchemes(s[4..])
    else [s[0]] + RemoveSchemes(s[1..])
  }

  predicate IsKeyChar(c: char) {
    IsAlnum(c) || c == '_'
  }

  /** `replace(/[^a-zA-Z0-9]/g, "_")`. */
  function Sanitise(s: string): (r: string)
    ensures |r| == |s|
    ensures forall i :: 0 <= i < |s| && IsAlnum(s[i]) ==> r[i] == s[i]
    ensures forall i :: 0 <= i < |s| && !IsAlnum(s[i]) ==> r[i] == '_'
  {
    if s == [] then [] else [if IsAlnum(s[0]) then s[0] else '_'] + Sanitise(s[1..])
  }

  /** The indicator key for a decoded destination: no longer than the URL and
      made only of ASCII letters, digits and underscores. */
  function DeriveKey(dest: string): (key: string)
    ensures |key| <= |dest|
    ensures forall i :: 0 <= i < |key| ==> IsKeyChar(key[i])
  {
    Sanitise(RemoveSchemes(dest))
  }

  /** Sanitising a key again changes nothing. */
  lemma SanitiseIdempotent(s: string)
    ensures Sanitise(Sanitise(s)) == Sanitise(s)
  {
    var r := Sanitise(s);
    assert forall i :: 0 <= i < |r| ==> IsKeyChar(r[i]);
  }

  /** An alternative of the pattern starts at position `i`. */
  predicate MatchesAt(s: string, i: int)
    requires 0 <= i <= |s|
  {
    StartsWith(s[i..], "http://") || StartsWith(s[i..], "https://") || StartsWith(s[i..], "www.")
  }

  lemma NotStartsWith(s: string, p: string, i: nat)
    requires i < |p| && i < |s| && s[i] != p[i]
    ensures !StartsWith(s, p)
  {
  }

  /** A prefix that matches one alternative is dropped entirely. */
  lemma RemoveSchemesDropsPrefix(p: string, s: string)
    requires p == "http://" || p == "https://" || p == "www."
    ensures RemoveSchemes(p + s) == RemoveSchemes(s)
  {
    var x := p + s;
    assert x[..|p|] == p;
    assert x[|p|..] == s;
    if p == "https://" {
      assert StartsWith(x, "https://");
    } else if p == "http://" {
      NotStartsWith(x, "https://", 4);
      assert StartsWith(x, "http://");
    } else {
      NotStartsWith(x, "https://", 0);
      NotStartsWith(x, "http://", 0);
      assert StartsWith(x, "www.");
    }
  }

  /** Text in which no alternative matches anywhere comes back unchanged. */
  lemma {:induction false} RemoveSchemesPatternFree(s: string)
    requires forall i :: 0 <= i <= |s| ==> !MatchesAt(s, i)
    ensures RemoveSchemes(s) == s
    decreases |s|
  {
    if s != [] {
      assert !MatchesAt(s, 0) && s[0..] == s;
      forall i | 0 <= i <= |s[1..]| ensures !MatchesAt(s[1..], i) {
        assert !MatchesAt(s, i + 1);
        assert s[1..][i..] == s[i + 1..];
      }
      RemoveSchemesPatternFree(s[1..]);
    }
  }

  /** Where no alternative starts, the character is kept and the scan moves
      on by one. */
  lemma RemoveSchemesKeepsFirst(s: string)
    requires s != [] && !MatchesAt(s, 0)
    ensures RemoveSchemes(s) == [s[0]] + RemoveSchemes(s[1..])
  {
    assert s[0..] == s;
  }

  /** A character that starts no alternative is kept and the scan moves on. */
  lemma RemoveSchemesKeeps(c: char, s: string)
    requires c != 'h' && c != 'w'
    ensures RemoveSchemes([c] + s) == [c] + RemoveSchemes(s)
  {
    var x := [c] + s;
    NotStartsWith(x, "https://", 0);
    NotStartsWith(x, "http://", 0);
    NotStartsWith(x, "www.", 0);
    assert x[1..] == s;
  }

  /** Text without 'h' and 'w' passes through the scan unchanged. */
  lemma {:induction false} RemoveSchemesKeepsAll(p: string, s: string)
    requires forall i :: 0 <= i < |p| ==> p[i] != 'h' && p[i] != 'w'
    ensures RemoveSchemes(p + s) == p + RemoveSchemes(s)
    decreases |p|
  {
    if p != [] {
      JoinHead(p, s);
      RemoveSchemesKeeps(p[0], p[1..] + s);
      RemoveSchemesKeepsAll(p[1..], s);
      JoinHead(p, RemoveSchemes(s));
    } else {
      assert p + s == s;
    }
  }

  lemma DropsInnerHttp(tail: string)
    ensures RemoveSchemes("hhttp://" + tail) == "h" + RemoveSchemes(tail)
  {
    var x := "hhttp://" + tail;
    NotStartsWith(x, "https://", 1);
    NotStartsWith(x, "http://", 1);
    NotStartsWith(x, "www.", 0);
    assert x[1..] == "http://" + tail;
    RemoveSchemesDropsPrefix("http://", tail);
  }

  /** The pass does not rescan what it has produced: removing the "http://"
      inside "hhttp://ttp://" joins a new "http://" at the front of the result. */
  lemma RemoveSchemesSinglePass(rest: string)
    ensures StartsWith(RemoveSchemes("hhttp://ttp://" + rest), "http://")
  {
    RegroupInput(rest);
    InnerHttpJoinsHead(rest);
    StartsWithJoin("http://", RemoveSchemes(rest));
  }

  lemma RegroupInput(rest: string)
    ensures RemoveSchemes("hhttp://ttp://" + rest) == RemoveSchemes("hhttp://" + ("ttp://" + rest))
  {
    assert "hhttp://ttp://" == "hhttp://" + "ttp://";
    JoinAssoc("hhttp://", "ttp://", rest);
  }

  lemma InnerHttpJoinsHead(rest: string)
    ensures RemoveSchemes("hhttp://" + ("ttp://" + rest)) == "http://" + RemoveSchemes(rest)
  {
    DropsInnerHttp("ttp://" + rest);
    RemoveSchemesKeepsAll("ttp://", rest);
    RejoinHttp(RemoveSchemes(rest));
  }

  lemma RejoinHttp(r: string)
    ensures "h" + ("ttp://" + r) == "http://" + r
  {
    assert "h" + "ttp://" == "http://";
    JoinAssoc("h", "ttp://", r);
  }

  predicate IsAlternative(o: string) {
    o == "https://" || o == "http://" || o == "www."
  }

  /** The alternative that matches at the head of `s`. */
  function Alternative(s: string): (o: string)
    requires MatchesAt(s, 0)
    ensures IsAlternative(o) && StartsWith(s, o)
  {
    assert s[0..] == s;
    if StartsWith(s, "https://") then "https://"
    else if StartsWith(s, "http://") then "http://"
    else "www."
  }

  /** One step of a left-to-right scan: a character kept, or an occurrence
      of an alternative cut out. */
  datatype Piece = Kept(c: char) | Cut(occurrence: string)

  function PieceText(p: Piece): string {
    match p
    case Kept(c) => [c]
    case Cut(o) => o
  }

  /** The text the pieces cover, in order. */
  function Joined(ps: seq<Piece>): string {
    if ps == [] then [] else PieceText(ps[0]) + Joined(ps[1..])
  }

  /** The kept characters, in order. */
  function KeptText(ps: seq<Piece>): string {
    if ps == [] then [] else (if ps[0].Kept? then [ps[0].c] else []) + KeptText(ps[1..])
  }

  lemma PiecesCons(p: Piece, ps: seq<Piece>)
    ensures Joined([p] + ps) == PieceText(p) + Joined(ps)
    ensures KeptText([p] + ps) == (if p.Kept? then [p.c] else []) + KeptText(ps)
  {
    assert ([p] + ps)[1..] == ps;
  }

  /** `s` cut into the occurrences the global replace removes and the
      characters it keeps: the pieces cover `s` in order, every cut piece is
      an alternative, and no alternative starts at a kept character. */
  function Scan(s: string): (ps: seq<Piece>)
    ensures Joined(ps) == s
    ensures forall i :: 0 <= i < |ps| && ps[i].Cut? ==> IsAlternative(ps[i].occurrence)
    ensures forall i :: 0 <= i < |ps| && ps[i].Kept? ==> !MatchesAt(Joined(ps[i..]), 0)
    decreases |s|
  {
    if s == [] then []
    else
      var p := if MatchesAt(s, 0) then Cut(Alternative(s)) else Kept(s[0]);
      var n := |PieceText(p)|;
      assert s == PieceText(p) + s[n..] by {
        assert s[..n] == PieceText(p);
      }
      var rest := Scan(s[n..]);
      ScanCons(s, p, rest);
      [p] + rest
  }

  lemma ScanCons(s: string, p: Piece, rest: seq<Piece>)
    requires s != [] && s == PieceText(p) + Joined(rest)
    requires p.Kept? ==> !MatchesAt(s, 0)
    requires p.Cut? ==> IsAlternative(p.occurrence)
    requires forall i :: 0 <= i < |rest| && rest[i].Cut? ==> IsAlternative(rest[i].occurrence)
    requires forall i :: 0 <= i < |rest| && rest[i].Kept? ==> !MatchesAt(Joined(rest[i..]), 0)
    ensures var ps := [p] + rest;
      Joined(ps) == s
      && (forall i :: 0 <= i < |ps| && ps[i].Cut? ==> IsAlternative(ps[i].occurrence))
      && (forall i :: 0 <= i < |ps| && ps[i].Kept? ==> !MatchesAt(Joined(ps[i..]), 0))
  {
    var ps := [p] + rest;
    PiecesCons(p, rest);
    assert ps[0..] == ps;
    forall i | 1 <= i < |ps|
      ensures ps[i] == rest[i - 1] && ps[i..] == rest[i - 1..]
    {
    }
  }

  /** The global replace keeps exactly the kept characters of the scan: the
      result is the input with the scanned occurrences deleted. */
  lemma {:induction false} RemoveSchemesDeletesOccurrences(s: string)
    ensures RemoveSchemes(s) == KeptText(Scan(s))
    decreases |s|
  {
    if s != [] {
      var ps := Scan(s);
      var p := ps[0];
      var n := |PieceText(p)|;
      assert s[..n] == PieceText(p);
      assert ps == [p] + Scan(s[n..]);
      PiecesCons(p, Scan(s[n..]));
      RemoveSchemesDeletesOccurrences(s[n..]);
      if MatchesAt(s, 0) {
        assert s == p.occurrence + s[n..];
        RemoveSchemesDropsPrefix(p.occurrence, s[n..]);
      } else {
        RemoveSchemesKeepsFirst(s);
      }
    }
  }

  /** A leading scheme or "www." does not change the key. */
  lemma DeriveKeyIgnoresPrefix(p: string, dest: string)
    requires p == "http://" || p == "https://" || p == "www."
    ensures DeriveKey(p + dest) == DeriveKey(dest)
  {
    RemoveSchemesDropsPrefix(p, dest);
  }

  datatype Status = Up | Down

  /** What the HTTP GET of the destination did: answered with a status, or
      threw an error carrying a message. For an answer, `logFailure` is the
      message of the error that `JSON.stringify(response)` throws while a 200
      answer is logged, or None when the response serialises. */
  datatype Probe = Responded(status: int, logFailure: Option<string>) | Threw(message: string)

  /** `getStatus(key, isHealthy, data)`: `{ [key]: { status, ...data } }`. */
  datatype IndicatorResult = IndicatorResult(key: string, status: Status, message: Option<string>)

  /** An object key that is `undefined` becomes the property name "undefined". */
  const UndefinedKey: string := "undefined"

  /** isHealthy as written. `decoded` is the outcome of decodeURIComponent on
      the encoded destination (its error message on failure); `probe` is the
      outcome of the request, consulted only once the key is derived. A 200
      answer is logged before the up result is returned, so an error thrown
      while serialising the response lands in the catch and reports down. */
  function IsHealthy(ready: bool, decoded: Result<string, string>, probe: Probe): (r: Option<IndicatorResult>)
    ensures r.None? <==> !ready
    ensures r.Some? ==> (r.value.status == Up <==>
      decoded.Success? && probe.Responded? && probe.status == 200 && probe.logFailure.None?)
    ensures r.Some? && r.value.status == Up ==> r.value.message.None?
    ensures r.Some? && decoded.Failure? ==> r.value == IndicatorResult(UndefinedKey, Down, Some(decoded.error))
    ensures r.Some? && decoded.Success? ==> r.value.key == DeriveKey(decoded.value)
    ensures r.Some? && decoded.Success? && probe.Responded? && probe.status == 200 && probe.logFailure.Some? ==>
      r.value.message == probe.logFailure
    ensures r.Some? && decoded.Success? && probe.Responded? && probe.status != 200 ==>
      r.value.message == Some("Status code " + IntToDecimal(probe.status))
    ensures r.Some? && decoded.Success? && probe.Threw? ==> r.value.message == Some(probe.message)
  {
    if !ready then None
    else match decoded
      case Failure(e) => Some(IndicatorResult(UndefinedKey, Down, Some(e)))
      case Success(dest) =>
        var key := DeriveKey(dest);
        match probe
        case Responded(status, logFailure) =>
          if status == 200 then
            match logFailure
            case None => Some(IndicatorResult(key, Up, None))
            case Some(e) => Some(IndicatorResult(key, Down, Some(e)))
          else Some(IndicatorResult(key, Down, Some("Status code " + IntToDecimal(status))))
        case Threw(message) => Some(IndicatorResult(key, Down, Some(message)))
  }

  /** The probe as it would be if logging the answer could not fail. */
  function LoggedSafely(probe: Probe): (p: Probe)
    ensures p.Responded? <==> probe.Responded?
    ensures p.Responded? ==> p.status == probe.status && p.logFailure.None?
    ensures p.Threw? ==> p == probe
  {
    if probe.Responded? then probe.(logFailure := None) else probe
  }

  /** isHealthy as intended: a 200 answer is up whether or not the debug log
      of the response can be written. */
  function IsHealthyIntended(ready: bool, decoded: Result<string, string>, probe: Probe): (r: Option<IndicatorResult>)
    ensures r.None? <==> !ready
    ensures r.Some? ==> (r.value.status == Up <==> decoded.Success? && probe.Responded? && probe.status == 200)
    ensures r.Some? && r.value.status == Up ==> r.value.message.None?
    ensures r.Some? && decoded.Failure? ==> r.value == IndicatorResult(UndefinedKey, Down, Some(decoded.error))
    ensures r.Some? && decoded.Success? ==> r.value.key == DeriveKey(decoded.value)
    ensures r.Some? && decoded.Success? && probe.Responded? && probe.status != 200 ==>
      r.value.message == Some("Status code " + IntToDecimal(probe.status))
    ensures r.Some? && decoded.Success? && probe.Threw? ==> r.value.message == Some(probe.message)
  {
    IsHealthy(ready, decoded, LoggedSafely(probe))
  }

  /** As written, a 200 answer whose response cannot be serialised for the
      log is reported down, with the serialisation error as its message,
      where the intended result is up. */
  lemma LoggingFailureReportsDown(dest: string, e: string)
    ensures IsHealthy(true, Success(dest), Responded(200, Some(e)))
      == Some(IndicatorResult(DeriveKey(dest), Down, Some(e)))
    ensures IsHealthyIntended(true, Success(dest), Responded(200, Some(e)))
      == Some(IndicatorResult(DeriveKey(dest), Up, None))
  {
  }

  /** The two agree on every probe except a 200 answer whose logging fails. */
  lemma IsHealthyAsIntendedOtherwise(ready: bool, decoded: Result<string, string>, probe: Probe)
    requires !(probe.Responded? && probe.status == 200 && probe.logFailure.Some?)
    ensures IsHealthy(ready, decoded, probe) == IsHealthyIntended(ready, decoded, probe)
  {
  }

  /** Whenever the destination decodes, the result sits under a key made of
      ASCII letters, digits and underscores, whatever the probe did. */
  lemma ResultKeyIsSanitised(decoded: Result<string, string>, probe: Probe)
    requires decoded.Success?
    ensures var r := IsHealthyIntended(true, decoded, probe);
      r.Some? && forall i :: 0 <= i < |r.value.key| ==> IsKeyChar(r.value.key[i])
  {
  }

  /** The numeral in a "Status code N" message reads back as the status. */
  lemma StatusMessageNamesStatus(dest: string, status: nat, logFailure: Option<string>)
    requires status != 200
    ensures var m := IsHealthyIntended(true, Success(dest), Responded(status, logFailure)).value.message.value;
      StartsWith(m, "Status code ") && DecimalValue(m[12..]) == status
  {
    var m := IsHealthyIntended(true, Success(dest), Responded(status, logFailure)).value.message.value;
    assert m == "Status code " + NatToDecimal(status);
    assert m[12..] == NatToDecimal(status);
    NatToDecimalRoundTrip(status);
  }
}
