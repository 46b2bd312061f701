/** What the parser of common/url.cpp finds in any text that it accepts, said of the text alone. */
module UrlParts {
  import opened Wrappers
  import opened SubString
  import opened Url
  import opened UrlFaults

  ghost predicate ProtoIs(t: string, s: SubString) { s.begin == 0 && 0 < s.end && Scheme(t, s.end) }

  /** A login runs from the start or the last slash to its colon. */
  ghost predicate LoginIs(t: string, s: SubString) {
    && LoginColon(t, s.end) && s.begin < s.end < |t|
    && (s.begin == 0 || t[s.begin - 1] == '/') && Without(t, '/', s.begin, s.end)
  }

  /** A password runs from the last colon to its '@'. */
  ghost predicate PassIs(t: string, s: SubString) {
    && PassAt(t, s.end) && 0 < s.begin < s.end < |t| && t[s.begin - 1] == ':' && Without(t, ':', s.begin, s.end)
  }

  ghost predicate NoPortBefore(t: string, o: nat) { forall c: nat :: c < o ==> !PortColon(t, c) }

  ghost predicate Found(u: Url, o: nat) {
    && Reached(u, o) && NoPortBefore(u.text, o)
    && (Nonempty(u.proto) ==> ProtoIs(u.text, u.proto))
    && (Nonempty(u.login) ==> LoginIs(u.text, u.login))
    && (Nonempty(u.pass) ==> PassIs(u.text, u.pass))
    && u.host == u.port == u.tail == EMPTY
  }

  /** Where the host begins: behind the last '@', behind the first "://", or at the start. */
  ghost predicate HostStarts(u: Url, q: nat)
    requires q <= |u.text|
  {
    var t, b := u.text, u.host.begin;
    if Nonempty(u.pass) then 0 < b <= q && t[b - 1] == '@' && Without(t, '@', b, q)
    else if Nonempty(u.proto) then 3 <= b && SchemeAt(t, b - 3) && forall j: nat {:trigger SchemeAt(t, j)} :: j < b - 3 ==> !SchemeAt(t, j)
    else b == 0
  }

  /** The stop: the first slash that is not a scheme's. */
  ghost predicate StopsAt(t: string, q: nat) { q < |t| && t[q] == '/' && !InSchemes(t, q) && Unstopped(t, q) }

  /** What is found up to the stop: a port if a number ends there, the host before it, and the tail behind it. */
  ghost predicate EndsWell(u: Url, q: nat) {
    && StopsAt(u.text, q) && HostStarts(u, q)
    && u.tail == SubString(q + 1, |u.text|, |u.text| - q - 1)
    && u.host.begin <= u.host.end && u.host.length == u.host.end - u.host.begin
    && (if Nonempty(u.port) then
          var c := u.host.end;
          c < |u.text| && u.text[c] == ':' && EndsPort(u.text, c, q) && u.port == SubString(c + 1, q, q - c - 1)
        else u.host.end == q && forall c: nat :: c < q ==> !PortColon(u.text, c))
  }

  /** Everything about the parts of an accepted text. */
  ghost predicate PartsAreExact(u: Url) {
    var t := u.text;
    && (Nonempty(u.login) <==> exists c: nat :: LoginColon(t, c)) && (Nonempty(u.login) ==> LoginIs(t, u.login))
    && (Nonempty(u.pass) <==> exists a: nat :: PassAt(t, a)) && (Nonempty(u.pass) ==> PassIs(t, u.pass))
    && (Nonempty(u.proto) <==> exists k: nat :: 0 < k < |t| && Scheme(t, k) && Unstopped(t, k))
    && (Nonempty(u.proto) ==> ProtoIs(t, u.proto))
    && (if Unstopped(t, |t|) then u.host == u.port == u.tail == EMPTY else exists q: nat :: EndsWell(u, q))
  }

  lemma {:induction false} FirstFound(t: string, from: nat)
    requires from <= |t|
    ensures forall j: nat {:trigger SchemeAt(t, j)} :: from <= j < FindScheme(t, from) ==> !SchemeAt(t, j)
    decreases |t| - from
  {
    if from < |t| && !SchemeAt(t, from) {
      FirstFound(t, from + 1);
    }
  }

  /** The span that `FillHost` sets begins where the host starts. */
  lemma HostIsPlaced(u: Url, q: nat)
    requires Inv(u, q) && q < |u.text|
    ensures HostStarts(FillHost(u, q), q)
  {
    if Nonempty(u.pass) {
      NoLast(u.text, '@', q - 1);
      LastIs(u.text, '@', q - 1, FindLast(u.text, '@', q - 1).value);
    } else if Nonempty(u.proto) {
      SchemeBefore(u.text, 0, u.proto.end);
      FirstFound(u.text, 0);
    }
  }

  lemma Quiet(u: Url, o: nat, d: nat)
    requires Found(u, o) && Reached(u, d) && o <= d < |u.text| && NoDelimiter(u.text, o, d)
    ensures Found(u, d)
  {
  }

  lemma SchemeFound(u: Url, d: nat)
    requires Found(u, d) && d < |u.text| && Scheme(u.text, d)
    ensures Found(FillProto(u, d).url, d + 3)
  {
    AfterScheme(u, d);
    ProtoTaken(u, d);
    var t := u.text;
    forall c: nat | c < d + 3 ensures !PortColon(t, c) {
      if c == d {
        assert t[d + 1] == '/';
      } else if c > d {
        assert t[c] == '/';
      }
    }
  }

  lemma LoginFound(u: Url, d: nat)
    requires Found(u, d) && d < |u.text| && u.text[d] == ':' && Active(u.text, d) && FillLogin(u, d).ok
    ensures Found(FillLogin(u, d).url, d + 1)
  {
    var t, slash, v := u.text, FindLast(u.text, '/', d), FillLogin(u, d).url;
    AfterLogin(u, d);
    LoginIsNonempty(u, d);
    LastSlash(u, d);
    if slash.Some? {
      LastIs(t, '/', d, slash.value);
    } else {
      NoLast(t, '/', d);
    }
    forall c: nat | c < d + 1 ensures !PortColon(t, c) {
    }
  }

  lemma PassFound(u: Url, d: nat)
    requires Found(u, d) && d < |u.text| && u.text[d] == '@' && FillPass(u, d).ok
    ensures Found(FillPass(u, d).url, d + 1)
  {
    var t := u.text;
    AfterPass(u, d);
    PassIsNonempty(u, d);
    NoLast(t, ':', d - 1);
    LastIs(t, ':', d - 1, FindLast(t, ':', d - 1).value);
    forall c: nat | c < d + 1 ensures !PortColon(t, c) {
    }
  }

  /** Nothing beyond the stop is a part of anything. */
  lemma OnlyBefore(t: string, q: nat)
    requires StopsAt(t, q)
    ensures forall d: nat :: Active(t, d) ==> d < q
    ensures forall k: nat :: k < |t| && Scheme(t, k) && Unstopped(t, k) ==> k < q
    ensures !Unstopped(t, |t|)
  {
    assert forall d: nat :: q < d <= |t| ==> !Unstopped(t, d);
  }

  /** From `d` to the stop there is nothing more to find. */
  lemma FoundIsAll(u: Url, d: nat, q: nat)
    requires Found(u, d) && StopsAt(u.text, q) && d <= q
    requires forall c: nat :: d <= c < q ==> !Active(u.text, c) && !Scheme(u.text, c)
    ensures var t := u.text;
      && (Nonempty(u.login) <==> exists c: nat :: LoginColon(t, c))
      && (Nonempty(u.pass) <==> exists a: nat :: PassAt(t, a))
      && (Nonempty(u.proto) <==> exists k: nat :: 0 < k < |t| && Scheme(t, k) && Unstopped(t, k))
  {
    OnlyBefore(u.text, q);
    if Nonempty(u.proto) {
      assert Unstopped(u.text, u.proto.end);
    }
  }

  /** At the stop all has been found. */
  lemma StopFound(u: Url, q: nat, v: Url)
    requires Found(u, q) && StopsAt(u.text, q) && v == FillTail(u, q).(valid := true)
    ensures PartsAreExact(v)
  {
    HostIsPlaced(u, q);
    OnlyBefore(u.text, q);
    assert EndsWell(v, q);
    FoundIsAll(u, q, q);
  }

  lemma StopAfterPort(u: Url, d: nat, e: nat)
    requires Found(u, d) && d < |u.text| && u.text[d] == ':' && EndsPort(u.text, d, e) && !Scheme(u.text, d)
    ensures StopsAt(u.text, e) && forall c: nat :: d <= c < e ==> !Active(u.text, c) && !Scheme(u.text, c)
  {
    var t := u.text;
    SlashAfterPort(t, d, e);
    forall c: nat | d <= c < e ensures t[c] != '/' && !Active(t, c) && !Scheme(t, c) {
      if c > d {
        assert IsDigit(t[c]);
      }
    }
  }

  /** The spans of the port and of the host before it. */
  lemma PortSpans(u: Url, d: nat)
    requires Found(u, d) && d < |u.text| && u.text[d] == ':' && FillPort(u, d).ok
    ensures var f := FillPort(u, d);
      && Inv(f.url, f.offset) && f.offset < |u.text| && f.url.text == u.text && EndsPort(u.text, d, f.offset)
      && f.url.port == SubString(d + 1, f.offset, f.offset - d - 1)
      && HostEnd(f.url, f.offset) == d
  {
    PortTaken(u, d);
    PortKeepsInv(u, d);
    var f := FillPort(u, d);
    HostInOrder(f.url, f.offset);
  }

  lemma PortEndsWell(u: Url, d: nat, v: Url)
    requires Found(u, d) && d < |u.text| && u.text[d] == ':' && FillPort(u, d).ok && !Scheme(u.text, d)
    requires var f := FillPort(u, d); Inv(f.url, f.offset) && v == FillTail(f.url, f.offset).(valid := true)
    ensures EndsWell(v, FillPort(u, d).offset)
  {
    var f := FillPort(u, d);
    PortSpans(u, d);
    StopAfterPort(u, d, f.offset);
    HostIsPlaced(f.url, f.offset);
  }

  /** A port is the last thing before the stop. */
  lemma PortFound(u: Url, d: nat, v: Url)
    requires Found(u, d) && d < |u.text| && u.text[d] == ':' && FillPort(u, d).ok && !Scheme(u.text, d)
    requires var f := FillPort(u, d); Inv(f.url, f.offset) && v == FillTail(f.url, f.offset).(valid := true)
    ensures PartsAreExact(v)
  {
    var e := FillPort(u, d).offset;
    PortTaken(u, d);
    StopAfterPort(u, d, e);
    PortEndsWell(u, d, v);
    OnlyBefore(u.text, e);
    FoundIsAll(u, d, e);
  }

  /** What a turn at the delimiter `d` finds: it goes on with what has been found so far, or all has been found. */
  ghost predicate TurnFinds(turned: Turned) {
    match turned
    case Go(v, n) => Found(v, n) || (Inv(v, n) && ParseFrom(v, n).Parsed? && PartsAreExact(ParseFrom(v, n).url))
    case Done(v) => PartsAreExact(v)
    case Failed => true
  }

  lemma PortTurns(u: Url, d: nat)
    requires Found(u, d) && d < |u.text| && u.text[d] == ':' && PortColon(u.text, d) && !Scheme(u.text, d)
    ensures FillPort(u, d).ok && TurnFinds(GoOn(FillPort(u, d)))
  {
    var f := FillPort(u, d);
    AfterPort(u, d);
    PortTaken(u, d);
    DelimiterIs(u.text, f.offset, f.offset);
    PortFound(u, d, FillTail(f.url, f.offset).(valid := true));
  }

  lemma SchemeTurns(u: Url, d: nat)
    requires Found(u, d) && d < |u.text| && Scheme(u.text, d)
    ensures TurnFinds(GoOn(FillProto(u, d)))
  {
    SchemeFound(u, d);
    ProtoTaken(u, d);
  }

  lemma LoginTurns(u: Url, d: nat)
    requires Found(u, d) && d < |u.text| && u.text[d] == ':' && Active(u.text, d)
    ensures TurnFinds(GoOn(FillLogin(u, d)))
  {
    if FillLogin(u, d).ok {
      AfterLogin(u, d);
      LoginFound(u, d);
    }
  }

  /** Which of the three a colon is taken for. */
  lemma ColonIs(u: Url, d: nat)
    requires Reached(u, d) && d < |u.text| && u.text[d] == ':'
    ensures FillColon(u, d)
      == if Scheme(u.text, d) then FillProto(u, d) else if PortColon(u.text, d) then FillPort(u, d) else FillLogin(u, d)
  {
    ProtoTaken(u, d);
    PortTaken(u, d);
  }

  lemma ColonFinds(u: Url, d: nat)
    requires Found(u, d) && d < |u.text| && u.text[d] == ':'
    ensures TurnFinds(GoOn(FillColon(u, d)))
  {
    ColonIs(u, d);
    if Scheme(u.text, d) {
      SchemeTurns(u, d);
    } else if PortColon(u.text, d) {
      PortTurns(u, d);
    } else {
      NotInside(u, d);
      LoginTurns(u, d);
    }
  }

  lemma TurnIsExact(u: Url, o: nat)
    requires Found(u, o) && o < |u.text|
    ensures TurnFinds(Turn(u, o))
  {
    var d := FindDelimiter(u.text, o);
    SkipKeepsInv(u, o);
    DelimiterIs(u.text, o, d);
    Skipped(u, o, d);
    Quiet(u, o, d);
    NotInside(u, d);
    if u.text[d] == '/' {
      StopFound(u, d, FillTail(u, d).(valid := true));
    } else if u.text[d] == ':' {
      ColonFinds(u, d);
    } else if FillPass(u, d).ok {
      PassFound(u, d);
    }
  }

  lemma EndIsExact(u: Url)
    requires Found(u, |u.text|)
    ensures PartsAreExact(u.(valid := true))
  {
    var t := u.text;
    assert forall c: nat :: Active(t, c) ==> c < |t|;
    if Nonempty(u.proto) {
      assert Unstopped(t, u.proto.end);
    }
  }

  lemma {:induction false} ParseFromIsExact(u: Url, o: nat)
    requires Found(u, o)
    ensures ParseFrom(u, o).Parsed? ==> PartsAreExact(ParseFrom(u, o).url)
    decreases |u.text| - o
  {
    if o == |u.text| {
      EndIsExact(u);
    } else {
      var turned := Turn(u, o);
      TurnIsExact(u, o);
      if turned.Go? && Found(turned.url, turned.offset) {
        ParseFromIsExact(turned.url, turned.offset);
      }
    }
  }

  /** In every text that is accepted, the six spans are the ones that its delimiters say. */
  lemma AcceptedPartsAreExact(input: string)
    ensures var r := Parse(input);
      r.Parsed? ==> r.url.valid && r.url.text == input + "/" && PartsAreExact(r.url)
  {
    var u := Fresh(input);
    assert Found(u, 0);
    ParseFromIsExact(u, 0);
  }
}
