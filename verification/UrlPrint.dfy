/** A printer for URLs and the proof that the parser of common/url.cpp is its inverse. */
module UrlPrint {
  import opened Wrappers
  import opened SubString
  import opened Url

  /** The parts of a URL; an empty string is an absent part. */
  datatype Parts = Parts(proto: string, login: string, pass: string, host: string, port: string, tail: Option<string>)

  predicate Plain(s: string) { forall i :: 0 <= i < |s| ==> !IsDelimiter(s[i]) }

  predicate Digits(s: string) { forall i :: 0 <= i < |s| ==> IsDigit(s[i]) }

  /** The port is a number, only the tail has delimiters in it, and there is no password without a login. */
  predicate WellFormed(p: Parts) {
    && Plain(p.proto) && Plain(p.login) && Plain(p.pass) && Plain(p.host) && Digits(p.port)
    && (p.login == "" ==> p.pass == "")
  }

  /** A login comes with a password. */
  predicate Paired(p: Parts) { p.login == "" || p.pass != "" }

  function ProtoText(p: Parts): string { if p.proto == "" then "" else p.proto + "://" }

  function LoginText(p: Parts): string { if p.login == "" then "" else p.login + ":" + p.pass + "@" }

  function PortText(p: Parts): string { if p.port == "" then "" else ":" + p.port }

  function TailText(p: Parts): string { if p.tail.None? then "" else "/" + p.tail.value }

  function Print(p: Parts): string { ProtoText(p) + LoginText(p) + p.host + PortText(p) + TailText(p) }

  ghost predicate At(text: string, k: nat, s: string) { k + |s| <= |text| && text[k..k + |s|] == s }

  lemma Split(text: string, k: nat, s: string, t: string)
    requires At(text, k, s + t)
    ensures At(text, k, s) && At(text, k + |s|, t)
  {
    assert text[k..k + |s|] == (s + t)[..|s|];
    assert text[k + |s|..k + |s| + |t|] == (s + t)[|s|..];
  }

  lemma CharAt(text: string, k: nat, s: string)
    requires At(text, k, s)
    ensures forall i :: k <= i < k + |s| ==> text[i] == s[i - k]
  {
    forall i | k <= i < k + |s| ensures text[i] == s[i - k] {
      assert text[i] == text[k..k + |s|][i - k];
    }
  }

  /** One turn of the parser's loop at a colon. */
  lemma ColonTurn(u: Url, a: nat, m: nat, v: Url, b: nat)
    requires Inv(u, a) && Inv(u, m) && !Nonempty(u.port) && a <= m < |u.text| && u.text[m] == ':'
    requires NoDelimiter(u.text, a, m)
    requires FillColon(u, m) == Fill(true, v, b)
    ensures Turn(u, a) == Go(v, b)
  {
    DelimiterIs(u.text, a, m);
  }

  lemma SkipTo(u: Url, a: nat, m: nat)
    requires Inv(u, a) && !Nonempty(u.port) && a <= m < |u.text| && IsDelimiter(u.text[m])
    requires NoDelimiter(u.text, a, m)
    ensures Inv(u, m)
  {
    DelimiterIs(u.text, a, m);
    SkipKeepsInv(u, a);
  }

  /** A nonempty scheme and its "://" are taken in one step. */
  lemma ProtoTaken(u: Url, n: nat, v: Url)
    requires Inv(u, 0) && !Nonempty(u.proto) && !Nonempty(u.port)
    requires n > 0 && SchemeAt(u.text, n) && NoDelimiter(u.text, 0, n)
    requires v == u.(proto := SubString(0, n, n))
    ensures Inv(u, n) && FillColon(u, n) == Fill(true, v, n + 3) && FindScheme(u.text, 0) == n
  {
    SkipTo(u, 0, n);
    SchemeBefore(u.text, 0, n);
  }

  lemma ProtoStep(u: Url, n: nat, v: Url)
    requires Inv(u, 0) && !Nonempty(u.proto) && !Nonempty(u.port)
    requires n > 0 && SchemeAt(u.text, n) && NoDelimiter(u.text, 0, n)
    requires v == u.(proto := SubString(0, n, n))
    ensures Turn(u, 0) == Go(v, n + 3) && FindScheme(u.text, 0) == n
  {
    ProtoTaken(u, n, v);
    ColonTurn(u, 0, n, v, n + 3);
  }

  /** The parts that come before `a` end there. */
  ghost predicate Starts(u: Url, a: nat) {
    if Nonempty(u.pass) then 0 < a <= |u.text| && u.text[a - 1] == '@'
    else if Nonempty(u.proto) then FindScheme(u.text, 0) + 3 == a
    else a == 0
  }

  /** The colon after a login belongs neither to a scheme nor to a port. */
  lemma NotPort(u: Url, m: nat, b: nat)
    requires Inv(u, m) && m + 1 <= b < |u.text| && u.text[m] == ':' && u.text[b] == '@'
    requires NoDelimiter(u.text, m + 1, b)
    ensures !FillProto(u, m).ok && !FillPort(u, m).ok
  {
    assert !SchemeAt(u.text, m);
    var end := FindNonDigit(u.text, m + 1);
    NonDigitIs(u.text, m + 1, end);
    assert !IsDigit(u.text[b]);
    assert !PortAt(u.text, m, end);
  }

  /** A login runs from the end of the scheme, or from the start. */
  lemma LoginFound(u: Url, a: nat, m: nat)
    requires Inv(u, a) && Inv(u, m) && a < m < |u.text| && u.text[m] == ':'
    requires !Nonempty(u.login) && !Nonempty(u.pass) && Starts(u, a)
    requires NoDelimiter(u.text, a, m)
    ensures FillLogin(u, m) == Fill(true, u.(login := SubString(a, m, m - a)), m + 1)
  {
    if a == 0 {
      NoLast(u.text, '/', m);
    } else {
      SchemeBefore(u.text, 0, u.proto.end);
      LastIs(u.text, '/', m, a - 1);
    }
  }

  lemma PassFound(u: Url, m: nat, b: nat)
    requires Inv(u, b) && m < b < |u.text| && u.text[m] == ':' && u.text[b] == '@'
    requires Nonempty(u.login) && !Nonempty(u.pass)
    requires NoDelimiter(u.text, m + 1, b)
    ensures FillPass(u, b) == Fill(true, u.(pass := SubString(m + 1, b, b - m - 1)), b + 1)
  {
    LastIs(u.text, ':', b - 1, m);
  }

  /** A login and its colon are taken in one turn. */
  lemma LoginTaken(u: Url, a: nat, m: nat, b: nat, w: Url)
    requires Inv(u, a) && !Nonempty(u.login) && !Nonempty(u.pass) && !Nonempty(u.port) && Starts(u, a)
    requires a < m && m + 1 <= b < |u.text| && u.text[m] == ':' && u.text[b] == '@'
    requires NoDelimiter(u.text, a, m) && NoDelimiter(u.text, m + 1, b)
    requires w == u.(login := SubString(a, m, m - a))
    ensures Inv(u, m) && FillColon(u, m) == Fill(true, w, m + 1)
  {
    SkipTo(u, a, m);
    NotPort(u, m, b);
    LoginFound(u, a, m);
  }

  lemma LoginStep(u: Url, a: nat, m: nat, b: nat, w: Url)
    requires Inv(u, a) && !Nonempty(u.login) && !Nonempty(u.pass) && !Nonempty(u.port) && Starts(u, a)
    requires a < m && m + 1 <= b < |u.text| && u.text[m] == ':' && u.text[b] == '@'
    requires NoDelimiter(u.text, a, m) && NoDelimiter(u.text, m + 1, b)
    requires w == u.(login := SubString(a, m, m - a))
    ensures Turn(u, a) == Go(w, m + 1)
  {
    LoginTaken(u, a, m, b, w);
    ColonTurn(u, a, m, w, m + 1);
  }

  /** A password and its '@' are taken in one turn. */
  lemma AtTurn(u: Url, a: nat, b: nat, v: Url)
    requires Inv(u, a) && Inv(u, b) && !Nonempty(u.port) && a <= b < |u.text| && u.text[b] == '@'
    requires NoDelimiter(u.text, a, b)
    requires FillPass(u, b) == Fill(true, v, b + 1)
    ensures Turn(u, a) == Go(v, b + 1)
  {
    DelimiterIs(u.text, a, b);
    PassKeepsInv(u, b);
  }

  lemma PassTaken(u: Url, m: nat, b: nat, v: Url)
    requires Inv(u, m + 1) && Nonempty(u.login) && !Nonempty(u.pass) && !Nonempty(u.port)
    requires m + 1 <= b < |u.text| && u.text[m] == ':' && u.text[b] == '@'
    requires NoDelimiter(u.text, m + 1, b)
    requires v == u.(pass := SubString(m + 1, b, b - m - 1))
    ensures Inv(u, b) && FillPass(u, b) == Fill(true, v, b + 1)
  {
    SkipTo(u, m + 1, b);
    PassFound(u, m, b);
  }

  lemma PassStep(u: Url, m: nat, b: nat, v: Url)
    requires Inv(u, m + 1) && Nonempty(u.login) && !Nonempty(u.pass) && !Nonempty(u.port)
    requires m + 1 <= b < |u.text| && u.text[m] == ':' && u.text[b] == '@'
    requires NoDelimiter(u.text, m + 1, b)
    requires v == u.(pass := SubString(m + 1, b, b - m - 1))
    ensures Turn(u, m + 1) == Go(v, b + 1)
  {
    PassTaken(u, m, b, v);
    AtTurn(u, m + 1, b, v);
  }

  lemma HostFound(u: Url, a: nat, offset: nat)
    requires Inv(u, offset) && a <= offset && Starts(u, a)
    requires Nonempty(u.pass) ==> Without(u.text, '@', a, offset)
    ensures HostBegin(u, offset) == a
  {
    if Nonempty(u.pass) {
      LastIs(u.text, '@', offset - 1, a - 1);
    }
  }

  /** Without a port, the host runs to the first slash and the tail is all that follows it. */
  lemma TailStep(u: Url, c: nat, a: nat, e: nat)
    requires Inv(u, c) && !Nonempty(u.port) && Starts(u, a) && a <= c && (Nonempty(u.pass) ==> a == c)
    requires c <= e < |u.text| && u.text[e] == '/' && NoDelimiter(u.text, c, e)
    ensures var n := |u.text|;
      Turn(u, c) == Done(u.(host := SubString(a, e, e - a), tail := SubString(e + 1, n, n - e - 1), valid := true))
  {
    DelimiterIs(u.text, c, e);
    SkipKeepsInv(u, c);
    HostFound(u, a, e);
  }

  lemma HostIsBeforePort(v: Url, a: nat, q: nat, e: nat)
    requires Inv(v, e) && Nonempty(v.port) && v.port.begin == q + 1
    requires a <= q && q + 1 < e < |v.text|
    requires Nonempty(v.pass) ==> Without(v.text, '@', a, e)
    requires Starts(v, a)
    ensures FillHost(v, e) == v.(host := SubString(a, q, q - a))
  {
    HostInOrder(v, e);
    HostFound(v, a, e);
  }

  /** A number between a colon and a slash is a port. */
  lemma PortIs(u: Url, c: nat, a: nat, q: nat, e: nat, w: Url)
    requires Inv(u, q) && !Nonempty(u.port) && Starts(u, a) && a <= c && (Nonempty(u.pass) ==> a == c)
    requires c <= q && q + 1 < e < |u.text| && u.text[q] == ':' && u.text[e] == '/'
    requires NoDelimiter(u.text, c, q)
    requires AllDigits(u.text, q + 1, e)
    requires w == u.(port := SubString(q + 1, e, e - q - 1), host := SubString(a, q, q - a))
    ensures FillPort(u, q) == Fill(true, w, e)
  {
    NonDigitIs(u.text, q + 1, e);
    PortFound(u, q, e);
    HostIsBeforePort(u.(port := SubString(q + 1, e, e - q - 1)), a, q, e);
  }

  lemma PortTaken(u: Url, c: nat, a: nat, q: nat, e: nat, w: Url)
    requires Inv(u, c) && !Nonempty(u.port) && Starts(u, a) && a <= c && (Nonempty(u.pass) ==> a == c)
    requires c <= q && q + 1 < e < |u.text| && u.text[q] == ':' && u.text[e] == '/'
    requires NoDelimiter(u.text, c, q)
    requires AllDigits(u.text, q + 1, e)
    requires w == u.(port := SubString(q + 1, e, e - q - 1), host := SubString(a, q, q - a))
    ensures Inv(u, q) && FillColon(u, q) == Fill(true, w, e)
  {
    SkipTo(u, c, q);
    PortIs(u, c, a, q, e, w);
    assert u.text[q + 1] != '/';
  }

  /** At a slash the parser is done. */
  lemma SlashTurn(u: Url, e: nat)
    requires Inv(u, e) && e < |u.text| && u.text[e] == '/'
    ensures Turn(u, e) == Done(FillTail(u, e).(valid := true))
  {
    DelimiterIs(u.text, e, e);
  }

  /** A port and the host before it are taken in one turn, and the tail in the next. */
  lemma PortStep(u: Url, c: nat, a: nat, q: nat, e: nat, w: Url)
    requires Inv(u, c) && !Nonempty(u.port) && Starts(u, a) && a <= c && (Nonempty(u.pass) ==> a == c)
    requires c <= q && q + 1 < e < |u.text| && u.text[q] == ':' && u.text[e] == '/'
    requires NoDelimiter(u.text, c, q)
    requires AllDigits(u.text, q + 1, e)
    requires w == u.(port := SubString(q + 1, e, e - q - 1), host := SubString(a, q, q - a))
    ensures Turn(u, c) == Go(w, e)
  {
    PortTaken(u, c, a, q, e, w);
    ColonTurn(u, c, q, w, e);
  }

  /**
   * Where the delimiters of a text stand: the scheme ends at `proto`, the login at `login`, the host begins at
   * `host` and ends at `port`, and the tail begins with the slash at `tail`.
   */
  datatype Marks = Marks(hasProto: bool, proto: nat, hasLogin: bool, login: nat, host: nat,
                         hasPort: bool, port: nat, tail: nat)

  function LoginBegin(k: Marks): nat { if k.hasProto then k.proto + 3 else 0 }

  predicate HasProto(text: string, k: Marks) {
    k.hasProto ==> k.proto > 0 && SchemeAt(text, k.proto) && NoDelimiter(text, 0, k.proto)
  }

  predicate HasLogin(text: string, k: Marks) {
    var a := LoginBegin(k);
    if k.hasLogin then
      && a < k.login && k.login + 2 <= k.host <= |text| && text[k.login] == ':' && text[k.host - 1] == '@'
      && NoDelimiter(text, a, k.login) && NoDelimiter(text, k.login + 1, k.host - 1)
    else k.host == a
  }

  /** Where the host is taken to begin: an empty password leaves the login, and what separates it, in the host. */
  function HostFrom(k: Marks): nat {
    if k.hasLogin && k.login + 2 == k.host then LoginBegin(k) else k.host
  }

  predicate HasHost(text: string, k: Marks) {
    && k.host <= k.port <= k.tail < |text| && NoDelimiter(text, k.host, k.port) && text[k.tail] == '/'
    && if k.hasPort then
         && k.port + 1 < k.tail && text[k.port] == ':'
         && AllDigits(text, k.port + 1, k.tail)
       else k.port == k.tail
  }

  predicate Marked(text: string, k: Marks) { HasProto(text, k) && HasLogin(text, k) && HasHost(text, k) }

  /** The spans that the marks delimit. */
  function Spans(text: string, k: Marks): Url
    requires Marked(text, k)
  {
    var a, n := LoginBegin(k), |text|;
    Url(text,
        if k.hasProto then SubString(0, k.proto, k.proto) else EMPTY,
        if k.hasLogin then SubString(a, k.login, k.login - a) else EMPTY,
        if k.hasLogin then SubString(k.login + 1, k.host - 1, k.host - k.login - 2) else EMPTY,
        SubString(HostFrom(k), k.port, k.port - HostFrom(k)),
        if k.hasPort then SubString(k.port + 1, k.tail, k.tail - k.port - 1) else EMPTY,
        SubString(k.tail + 1, n, n - k.tail - 1),
        true)
  }

  /** At most one turn leads from the one state to the other. */
  ghost predicate Leads(u: Url, a: nat, v: Url, b: nat)
    requires Inv(u, a)
  {
    (u == v && a == b) || (a < |u.text| && Turn(u, a) == Go(v, b))
  }

  /** The parser ends the same way from either state. */
  ghost predicate SameEnd(u: Url, a: nat, v: Url, b: nat) {
    Inv(u, a) && Inv(v, b) && ParseFrom(u, a) == ParseFrom(v, b)
  }

  lemma LeadsOn(u: Url, a: nat, v: Url, b: nat)
    requires Inv(u, a) && Leads(u, a, v, b)
    ensures SameEnd(u, a, v, b)
  {
  }

  lemma AfterProto(u: Url, k: Marks, v: Url)
    requires Inv(u, 0) && HasProto(u.text, k) && !Nonempty(u.proto) && !Nonempty(u.pass) && !Nonempty(u.port)
    requires v == if k.hasProto then u.(proto := SubString(0, k.proto, k.proto)) else u
    ensures Leads(u, 0, v, LoginBegin(k)) && Starts(v, LoginBegin(k))
  {
    if k.hasProto {
      ProtoStep(u, k.proto, v);
    }
  }

  lemma StartsAfterLogin(u: Url, k: Marks, v: Url, w: Url)
    requires Starts(u, LoginBegin(k)) && HasLogin(u.text, k) && k.hasLogin && !Nonempty(u.pass)
    requires v == u.(login := SubString(LoginBegin(k), k.login, k.login - LoginBegin(k)))
    requires w == v.(pass := SubString(k.login + 1, k.host - 1, k.host - k.login - 2))
    ensures Starts(w, HostFrom(k))
  {
  }

  lemma AfterLogin(u: Url, k: Marks, a: nat, v: Url)
    requires a == LoginBegin(k) && Inv(u, a) && Starts(u, a) && HasLogin(u.text, k) && k.hasLogin
    requires !Nonempty(u.login) && !Nonempty(u.pass) && !Nonempty(u.port)
    requires v == u.(login := SubString(a, k.login, k.login - a))
    ensures Turn(u, a) == Go(v, k.login + 1) && Inv(v, k.login + 1) && Nonempty(v.login)
  {
    LoginStep(u, a, k.login, k.host - 1, v);
  }

  lemma AfterPass(v: Url, k: Marks, w: Url)
    requires Inv(v, k.login + 1) && HasLogin(v.text, k) && k.hasLogin
    requires Nonempty(v.login) && !Nonempty(v.pass) && !Nonempty(v.port)
    requires w == v.(pass := SubString(k.login + 1, k.host - 1, k.host - k.login - 2))
    ensures Turn(v, k.login + 1) == Go(w, k.host)
  {
    PassStep(v, k.login, k.host - 1, w);
  }

  lemma LoginAndPass(u: Url, k: Marks, a: nat, v: Url, w: Url)
    requires a == LoginBegin(k) && Inv(u, a) && Starts(u, a) && HasLogin(u.text, k) && k.hasLogin
    requires !Nonempty(u.login) && !Nonempty(u.pass) && !Nonempty(u.port)
    requires v == u.(login := SubString(a, k.login, k.login - a))
    requires w == v.(pass := SubString(k.login + 1, k.host - 1, k.host - k.login - 2))
    ensures a < |u.text| && Turn(u, a) == Go(v, k.login + 1) && Inv(v, k.login + 1)
    ensures k.login + 1 < |v.text| && Turn(v, k.login + 1) == Go(w, k.host)
  {
    AfterLogin(u, k, a, v);
    AfterPass(v, k, w);
  }

  lemma TwoTurns(u: Url, a: nat, v: Url, b: nat, w: Url, c: nat)
    requires Inv(u, a) && a < |u.text| && Turn(u, a) == Go(v, b)
    requires Inv(v, b) && b < |v.text| && Turn(v, b) == Go(w, c)
    ensures SameEnd(u, a, w, c)
  {
    LeadsOn(u, a, v, b);
    LeadsOn(v, b, w, c);
  }

  lemma TailAfterPort(v: Url, k: Marks, a: nat)
    requires Inv(v, k.tail) && Starts(v, a) && HasHost(v.text, k) && k.hasPort
    requires a <= k.host && (Nonempty(v.pass) ==> a == k.host)
    requires v.port == SubString(k.port + 1, k.tail, k.tail - k.port - 1)
    requires v.host == SubString(a, k.port, k.port - a)
    ensures Turn(v, k.tail) == Done(v.(tail := SubString(k.tail + 1, |v.text|, |v.text| - k.tail - 1), valid := true))
  {
    HostIsBeforePort(v, a, k.port, k.tail);
    SlashTurn(v, k.tail);
  }

  lemma AfterHost(u: Url, k: Marks, a: nat, v: Url)
    requires Inv(u, k.host) && HasHost(u.text, k) && u.port == EMPTY && u.host == EMPTY
    requires Starts(u, a) && a <= k.host && (Nonempty(u.pass) ==> a == k.host)
    requires v == if k.hasPort then
                    u.(port := SubString(k.port + 1, k.tail, k.tail - k.port - 1),
                       host := SubString(a, k.port, k.port - a))
                  else u
    ensures var b := if k.hasPort then k.tail else k.host;
      && Leads(u, k.host, v, b) && Inv(v, b)
      && Turn(v, b) == Done(v.(host := SubString(a, k.port, k.port - a),
                               tail := SubString(k.tail + 1, |u.text|, |u.text| - k.tail - 1), valid := true))
  {
    if k.hasPort {
      PortStep(u, k.host, a, k.port, k.tail, v);
      TailAfterPort(v, k, a);
    } else {
      TailStep(u, k.host, a, k.tail);
    }
  }

  lemma ParseToLogin(u: Url, k: Marks, v: Url)
    requires Inv(u, 0) && HasProto(u.text, k) && !Nonempty(u.proto) && !Nonempty(u.pass) && !Nonempty(u.port)
    requires v == if k.hasProto then u.(proto := SubString(0, k.proto, k.proto)) else u
    ensures SameEnd(u, 0, v, LoginBegin(k)) && Starts(v, LoginBegin(k))
  {
    AfterProto(u, k, v);
    LeadsOn(u, 0, v, LoginBegin(k));
  }

  lemma ParseLogin(u: Url, k: Marks, a: nat, v: Url, w: Url)
    requires a == LoginBegin(k) && Inv(u, a) && Starts(u, a) && HasLogin(u.text, k) && k.hasLogin
    requires !Nonempty(u.login) && !Nonempty(u.pass) && !Nonempty(u.port)
    requires v == u.(login := SubString(a, k.login, k.login - a))
    requires w == v.(pass := SubString(k.login + 1, k.host - 1, k.host - k.login - 2))
    ensures SameEnd(u, a, w, k.host)
  {
    LoginAndPass(u, k, a, v, w);
    TwoTurns(u, a, v, k.login + 1, w, k.host);
  }

  lemma ParseToHost(u: Url, k: Marks, v: Url, w: Url, x: Url)
    requires Inv(u, 0) && Marked(u.text, k) && u == Url(u.text, EMPTY, EMPTY, EMPTY, EMPTY, EMPTY, EMPTY, false)
    requires var s := Spans(u.text, k); v == u.(proto := s.proto) && w == v.(login := s.login) && x == w.(pass := s.pass)
    ensures SameEnd(u, 0, x, k.host) && Starts(x, HostFrom(k))
  {
    ParseToLogin(u, k, v);
    if k.hasLogin {
      ParseLogin(v, k, LoginBegin(k), w, x);
      StartsAfterLogin(v, k, w, x);
    }
  }

  lemma LastTurns(x: Url, a: nat, y: Url, b: nat, z: Url)
    requires Inv(x, a) && Leads(x, a, y, b) && Inv(y, b) && b < |y.text| && Turn(y, b) == Done(z)
    ensures ParseFrom(x, a) == Parsed(z)
  {
    LeadsOn(x, a, y, b);
  }

  lemma HostAndTail(x: Url, k: Marks, y: Url, b: nat, z: Url)
    requires Marked(x.text, k) && Inv(x, k.host) && Starts(x, HostFrom(k))
    requires z == Spans(x.text, k)
    requires x == z.(host := EMPTY, port := EMPTY, tail := EMPTY, valid := false)
    requires y == if k.hasPort then x.(port := z.port, host := z.host) else x
    requires b == if k.hasPort then k.tail else k.host
    ensures Leads(x, k.host, y, b) && Inv(y, b) && b < |y.text| && Turn(y, b) == Done(z)
  {
    AfterHost(x, k, HostFrom(k), y);
  }

  lemma ParseFromHost(x: Url, k: Marks, y: Url, z: Url)
    requires Marked(x.text, k) && Inv(x, k.host) && Starts(x, HostFrom(k))
    requires z == Spans(x.text, k)
    requires x == z.(host := EMPTY, port := EMPTY, tail := EMPTY, valid := false)
    requires y == if k.hasPort then x.(port := z.port, host := z.host) else x
    ensures ParseFrom(x, k.host) == Parsed(z)
  {
    var b := if k.hasPort then k.tail else k.host;
    HostAndTail(x, k, y, b, z);
    LastTurns(x, k.host, y, b, z);
  }

  /** Parsing a text with the delimiters at their places gives exactly the spans between them. */
  lemma ParseFindsSpans(input: string, k: Marks)
    requires Marked(input + "/", k)
    ensures Parse(input) == Parsed(Spans(input + "/", k))
  {
    var u := Fresh(input);
    var s := Spans(u.text, k);
    var v := u.(proto := s.proto);
    var w := v.(login := s.login);
    var x := w.(pass := s.pass);
    ParseToHost(u, k, v, w, x);
    ParseFromHost(x, k, if k.hasPort then x.(port := s.port, host := s.host) else x, s);
  }

  /** Where the parts of a printed URL begin. */
  function LoginStart(p: Parts): nat { if p.proto == "" then 0 else |p.proto| + 3 }

  function HostStart(p: Parts): nat { LoginStart(p) + if p.login == "" then 0 else |p.login| + |p.pass| + 2 }

  function PortStart(p: Parts): nat { HostStart(p) + |p.host| }

  function TailStart(p: Parts): nat { PortStart(p) + if p.port == "" then 0 else |p.port| + 1 }

  lemma Lengths(p: Parts)
    ensures |ProtoText(p)| == LoginStart(p) && LoginStart(p) + |LoginText(p)| == HostStart(p)
    ensures PortStart(p) + |PortText(p)| == TailStart(p)
  {
  }

  function MarksOf(p: Parts): Marks {
    Marks(p.proto != "", |p.proto|, p.login != "", LoginStart(p) + |p.login|, HostStart(p),
          p.port != "", PortStart(p), TailStart(p))
  }

  /** The text holds the parts at their places. */
  ghost predicate LaidOut(p: Parts, text: string) {
    && At(text, 0, ProtoText(p)) && At(text, LoginStart(p), LoginText(p)) && At(text, HostStart(p), p.host)
    && At(text, PortStart(p), PortText(p)) && At(text, TailStart(p), TailText(p) + "/")
    && |text| == TailStart(p) + |TailText(p)| + 1
  }

  lemma Segments(a: string, b: string, c: string, d: string, e: string)
    ensures var text := a + b + c + d + e;
      && At(text, 0, a) && At(text, |a|, b) && At(text, |a| + |b|, c) && At(text, |a| + |b| + |c|, d)
      && At(text, |a| + |b| + |c| + |d|, e)
  {
    var text := a + b + c + d + e;
    assert text[0..|text|] == text;
    Split(text, 0, a + b + c + d, e);
    Split(text, 0, a + b + c, d);
    Split(text, 0, a + b, c);
    Split(text, 0, a, b);
  }

  lemma Associate(a: string, b: string, c: string)
    ensures (a + b) + c == a + (b + c)
  {
  }

  lemma Layout(p: Parts)
    ensures LaidOut(p, Print(p) + "/")
  {
    var a, b, c, d, e := ProtoText(p), LoginText(p), p.host, PortText(p), TailText(p);
    Segments(a, b, c, d, e + "/");
    Associate(a + b + c + d, e, "/");
    Lengths(p);
  }

  lemma PlainAt(text: string, k: nat, s: string)
    requires At(text, k, s) && Plain(s)
    ensures NoDelimiter(text, k, k + |s|)
  {
    CharAt(text, k, s);
  }

  lemma ProtoAt(text: string, proto: string)
    requires At(text, 0, proto + "://") && Plain(proto)
    ensures At(text, 0, proto) && SchemeAt(text, |proto|) && NoDelimiter(text, 0, |proto|)
  {
    Split(text, 0, proto, "://");
    CharAt(text, |proto|, "://");
    PlainAt(text, 0, proto);
  }

  lemma ProtoMarked(p: Parts, text: string)
    requires At(text, 0, ProtoText(p)) && WellFormed(p)
    ensures HasProto(text, MarksOf(p))
  {
    if p.proto != "" {
      ProtoAt(text, p.proto);
    }
  }

  lemma LoginAt(text: string, a: nat, login: string, pass: string)
    requires At(text, a, login + ":" + pass + "@")
    ensures At(text, a, login) && At(text, a + |login|, ":")
    ensures At(text, a + |login| + 1, pass) && At(text, a + |login| + 1 + |pass|, "@")
  {
    Split(text, a, login + ":" + pass, "@");
    Split(text, a, login + ":", pass);
    Split(text, a, login, ":");
  }

  lemma LoginDelimiters(text: string, a: nat, login: string, pass: string, m: nat, b: nat)
    requires At(text, a, login + ":" + pass + "@") && Plain(login) && Plain(pass)
    requires m == a + |login| && b == m + 1 + |pass|
    ensures b < |text| && text[m] == ':' && text[b] == '@'
    ensures NoDelimiter(text, a, m) && NoDelimiter(text, m + 1, b)
  {
    LoginAt(text, a, login, pass);
    CharAt(text, m, ":");
    CharAt(text, b, "@");
    PlainAt(text, a, login);
    PlainAt(text, m + 1, pass);
  }

  /** The marks of the login, from the places of its two delimiters. */
  lemma LoginHasMarks(p: Parts, text: string, m: nat, b: nat)
    requires p.login != "" && m == LoginStart(p) + |p.login| && b == m + 1 + |p.pass|
    requires b < |text| && text[m] == ':' && text[b] == '@'
    requires NoDelimiter(text, LoginStart(p), m) && NoDelimiter(text, m + 1, b)
    ensures HasLogin(text, MarksOf(p))
  {
  }

  lemma LoginMarked(p: Parts, text: string)
    requires At(text, LoginStart(p), LoginText(p)) && WellFormed(p)
    ensures HasLogin(text, MarksOf(p))
  {
    if p.login != "" {
      var m := LoginStart(p) + |p.login|;
      LoginDelimiters(text, LoginStart(p), p.login, p.pass, m, m + 1 + |p.pass|);
      LoginHasMarks(p, text, m, m + 1 + |p.pass|);
    }
  }

  lemma PortChars(text: string, k: nat, port: string)
    requires At(text, k, ":" + port) && Digits(port)
    ensures text[k] == ':' && At(text, k + 1, port) && AllDigits(text, k + 1, k + 1 + |port|)
  {
    Split(text, k, ":", port);
    CharAt(text, k, ":");
    CharAt(text, k + 1, port);
  }

  lemma SlashAt(text: string, k: nat, tail: Option<string>)
    requires At(text, k, (if tail.None? then "" else "/" + tail.value) + "/")
    ensures k < |text| && text[k] == '/'
  {
    CharAt(text, k, (if tail.None? then "" else "/" + tail.value) + "/");
  }

  lemma HostMarked(p: Parts, text: string)
    requires At(text, HostStart(p), p.host) && At(text, PortStart(p), PortText(p))
    requires At(text, TailStart(p), TailText(p) + "/") && WellFormed(p)
    ensures HasHost(text, MarksOf(p))
  {
    PlainAt(text, HostStart(p), p.host);
    SlashAt(text, TailStart(p), p.tail);
    if p.port != "" {
      PortChars(text, PortStart(p), p.port);
    }
  }

  lemma PrintIsMarked(p: Parts, text: string)
    requires WellFormed(p) && LaidOut(p, text)
    ensures Marked(text, MarksOf(p))
  {
    ProtoMarked(p, text);
    LoginMarked(p, text);
    HostMarked(p, text);
  }

  /** The span of a part that begins at `k`, and of an absent part. */
  function SpanAt(k: nat, s: string): SubString { if s == "" then EMPTY else SubString(k, k + |s|, |s|) }

  lemma StrAt(text: string, k: nat, s: string)
    requires s != "" ==> At(text, k, s)
    ensures Str(SpanAt(k, s), text) == Some(s)
  {
  }

  /** The spans of a printed URL are those of its parts. */
  lemma SpansAre(p: Parts, text: string)
    requires WellFormed(p) && Paired(p) && Marked(text, MarksOf(p))
    ensures var u := Spans(text, MarksOf(p));
      && u.proto == SpanAt(0, p.proto) && u.login == SpanAt(LoginStart(p), p.login)
      && u.pass == SpanAt(LoginStart(p) + |p.login| + 1, p.pass)
      && u.host == SubString(HostStart(p), PortStart(p), |p.host|)
      && u.port == SpanAt(PortStart(p) + 1, p.port)
      && u.tail == SubString(TailStart(p) + 1, |text|, |text| - TailStart(p) - 1)
  {
  }

  lemma ProtoHeld(p: Parts, text: string)
    requires At(text, 0, ProtoText(p))
    ensures Str(SpanAt(0, p.proto), text) == Some(p.proto)
  {
    if p.proto != "" {
      Split(text, 0, p.proto, "://");
    }
    StrAt(text, 0, p.proto);
  }

  lemma LoginHeld(p: Parts, text: string)
    requires WellFormed(p) && Paired(p) && At(text, LoginStart(p), LoginText(p))
    ensures Str(SpanAt(LoginStart(p), p.login), text) == Some(p.login)
    ensures Str(SpanAt(LoginStart(p) + |p.login| + 1, p.pass), text) == Some(p.pass)
  {
    if p.login != "" {
      LoginAt(text, LoginStart(p), p.login, p.pass);
    }
    StrAt(text, LoginStart(p), p.login);
    StrAt(text, LoginStart(p) + |p.login| + 1, p.pass);
  }

  lemma PortHeld(p: Parts, text: string)
    requires At(text, PortStart(p), PortText(p))
    ensures Str(SpanAt(PortStart(p) + 1, p.port), text) == Some(p.port)
  {
    if p.port != "" {
      Split(text, PortStart(p), ":", p.port);
    }
    StrAt(text, PortStart(p) + 1, p.port);
  }

  lemma HostHeld(p: Parts, text: string)
    requires At(text, HostStart(p), p.host)
    ensures Str(SubString(HostStart(p), PortStart(p), |p.host|), text) == Some(p.host)
  {
    StrIsSlice(SubString(HostStart(p), PortStart(p), |p.host|), text);
  }

  /** The tail is cut from the text with the appended slash. */
  lemma TailHeld(p: Parts, text: string)
    requires At(text, TailStart(p), TailText(p) + "/") && |text| == TailStart(p) + |TailText(p)| + 1
    ensures Str(SubString(TailStart(p) + 1, |text|, |text| - TailStart(p) - 1), text)
      == Some(if p.tail.None? then "" else p.tail.value + "/")
  {
    var e, n := TailStart(p), |text|;
    StrIsSlice(SubString(e + 1, n, n - e - 1), text);
    if p.tail.Some? {
      Associate("/", p.tail.value, "/");
      Split(text, e, "/", p.tail.value + "/");
      assert n == e + 1 + |p.tail.value + "/"|;
    } else {
      assert text[e + 1..n] == "";
    }
  }

  /** What the accessors of the parsed URL return: the parts, with the appended slash at the end of the tail. */
  ghost predicate Recovered(p: Parts, u: Url) {
    && Str(u.proto, u.text) == Some(p.proto) && Str(u.login, u.text) == Some(p.login)
    && Str(u.pass, u.text) == Some(p.pass) && Str(u.host, u.text) == Some(p.host)
    && Str(u.port, u.text) == Some(p.port)
    && Str(u.tail, u.text) == Some(if p.tail.None? then "" else p.tail.value + "/")
  }

  lemma ParsePrint(p: Parts)
    requires WellFormed(p)
    ensures LaidOut(p, Print(p) + "/") && Marked(Print(p) + "/", MarksOf(p))
    ensures Parse(Print(p)) == Parsed(Spans(Print(p) + "/", MarksOf(p)))
  {
    Layout(p);
    PrintIsMarked(p, Print(p) + "/");
    ParseFindsSpans(Print(p), MarksOf(p));
  }

  lemma PairedRecovered(p: Parts)
    requires WellFormed(p) && Paired(p)
    ensures Parse(Print(p)).Parsed? && Recovered(p, Parse(Print(p)).url)
  {
    var text := Print(p) + "/";
    ParsePrint(p);
    SpansAre(p, text);
    ProtoHeld(p, text);
    LoginHeld(p, text);
    PortHeld(p, text);
    HostHeld(p, text);
    TailHeld(p, text);
  }

  lemma Join(text: string, k: nat, s: string, t: string)
    requires At(text, k, s) && At(text, k + |s|, t)
    ensures At(text, k, s + t)
  {
    assert text[k..k + |s + t|] == text[k..k + |s|] + text[k + |s|..k + |s| + |t|];
  }

  lemma EmptyPassText(login: string)
    ensures login + ":" + "" + "@" == login + ":@"
  {
  }

  /** The login with an empty password, and the host after it, as one piece of the text. */
  lemma LoginAndHostAt(p: Parts, text: string)
    requires At(text, LoginStart(p), LoginText(p)) && At(text, HostStart(p), p.host) && p.login != "" && p.pass == ""
    ensures At(text, LoginStart(p), p.login + ":@" + p.host)
  {
    EmptyPassText(p.login);
    Join(text, LoginStart(p), p.login + ":@", p.host);
  }

  /** The host's span when the password is empty. */
  lemma HostSpanWithoutPass(p: Parts, text: string)
    requires p.login != "" && p.pass == "" && Marked(text, MarksOf(p))
    ensures var n := |p.login + ":@" + p.host|;
      Spans(text, MarksOf(p)).host == SubString(LoginStart(p), LoginStart(p) + n, n)
  {
  }

  lemma StrOfPiece(text: string, k: nat, s: string, span: SubString)
    requires At(text, k, s) && span == SubString(k, k + |s|, |s|)
    ensures Str(span, text) == Some(s)
  {
  }

  lemma HostWithoutPass(p: Parts, text: string)
    requires At(text, LoginStart(p), LoginText(p)) && At(text, HostStart(p), p.host)
    requires p.login != "" && p.pass == "" && Marked(text, MarksOf(p))
    ensures Str(Spans(text, MarksOf(p)).host, text) == Some(p.login + ":@" + p.host)
  {
    HostSpanWithoutPass(p, text);
    LoginAndHostAt(p, text);
    StrOfPiece(text, LoginStart(p), p.login + ":@" + p.host, Spans(text, MarksOf(p)).host);
  }

  /** After a login with an empty password the host begins with the login and what separates it. */
  lemma EmptyPassHost(p: Parts)
    requires WellFormed(p) && p.login != "" && p.pass == ""
    ensures var r := Parse(Print(p));
      && r.Parsed? && r.url.valid && r.url.host.begin == LoginStart(p)
      && Str(r.url.host, r.url.text) == Some(p.login + ":@" + p.host)
  {
    ParsePrint(p);
    HostWithoutPass(p, Print(p) + "/");
    HostSpanWithoutPass(p, Print(p) + "/");
  }

  lemma LongerHost(login: string, host: string)
    ensures login + ":@" + host != host
  {
    assert |login + ":@" + host| > |host|;
  }

  lemma EmptyPassSpoilsHost(p: Parts)
    requires WellFormed(p) && p.login != "" && p.pass == ""
    ensures var r := Parse(Print(p)); r.Parsed? && r.url.valid && !Recovered(p, r.url)
  {
    EmptyPassHost(p);
    LongerHost(p.login, p.host);
  }

  /** An empty password is taken for a missing one, and the host found without it. */
  lemma UserWithoutPassword()
    ensures var r := Parse("user:@host");
      r.Parsed? && r.url.valid && Str(r.url.host, r.url.text) == Some("user:@host")
  {
    var p := Parts("", "user", "", "host", "", None);
    assert Print(p) == "user:@host";
    EmptyPassHost(p);
  }

  /**
   Every printed URL parses and is valid, and its parts come back exactly when a login, if there is one, has a
   password with it.
   */
  lemma RoundTrip(p: Parts)
    requires WellFormed(p)
    ensures var r := Parse(Print(p));
      r.Parsed? && r.url.valid && (Recovered(p, r.url) <==> p.login == "" || p.pass != "")
  {
    if Paired(p) {
      PairedRecovered(p);
    } else {
      EmptyPassSpoilsHost(p);
    }
  }

  /** No two URLs with paired credentials print alike. */
  lemma PrintIsInjective(p: Parts, p': Parts)
    requires WellFormed(p) && WellFormed(p') && Paired(p) && Paired(p') && Print(p) == Print(p')
    ensures p == p'
  {
    PairedRecovered(p);
    PairedRecovered(p');
    if p.tail.Some? && p'.tail.Some? {
      var t, t' := p.tail.value, p'.tail.value;
      assert t == (t + "/")[..|t|];
      assert t' == (t' + "/")[..|t'|];
    }
  }
}
