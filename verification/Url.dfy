/** The URL parser of common/url.cpp as a function of its input. */
module Url {
  import opened Wrappers
  import opened SubString

  predicate IsDelimiter(c: char) { c == ':' || c == '/' || c == '@' }

  predicate IsDigit(c: char) { '0' <= c <= '9' }

  /** The first delimiter at or after `from`; the length when there is none. */
  function FindDelimiter(text: string, from: nat): (k: nat)
    requires from <= |text|
    ensures from <= k <= |text|
    decreases |text| - from
  {
    if from == |text| || IsDelimiter(text[from]) then from else FindDelimiter(text, from + 1)
  }

  predicate NoDelimiter(text: string, from: nat, upto: nat)
    requires upto <= |text|
  {
    forall i :: from <= i < upto ==> !IsDelimiter(text[i])
  }

  lemma {:induction false} DelimiterIs(text: string, from: nat, k: nat)
    requires from <= k <= |text|
    ensures FindDelimiter(text, from) == k <==> NoDelimiter(text, from, k) && (k < |text| ==> IsDelimiter(text[k]))
    decreases k - from
  {
    if from < k {
      DelimiterIs(text, from + 1, k);
    }
  }

  /** The first character at or after `from` that is not a digit; the length when there is none. */
  function FindNonDigit(text: string, from: nat): (k: nat)
    requires from <= |text|
    ensures from <= k <= |text|
    decreases |text| - from
  {
    if from == |text| || !IsDigit(text[from]) then from else FindNonDigit(text, from + 1)
  }

  predicate AllDigits(text: string, from: nat, upto: nat)
    requires upto <= |text|
  {
    forall i :: from <= i < upto ==> IsDigit(text[i])
  }

  lemma {:induction false} NonDigitIs(text: string, from: nat, k: nat)
    requires from <= k <= |text|
    ensures FindNonDigit(text, from) == k <==> AllDigits(text, from, k) && (k < |text| ==> !IsDigit(text[k]))
    decreases k - from
  {
    if from < k {
      NonDigitIs(text, from + 1, k);
    }
  }

  /** The last occurrence of `c` at or before `upto`. */
  function FindLast(text: string, c: char, upto: nat): (k: Option<nat>)
    requires upto < |text|
    ensures k.Some? ==> k.value <= upto
  {
    if text[upto] == c then Some(upto) else if upto == 0 then None else FindLast(text, c, upto - 1)
  }

  predicate Without(text: string, c: char, from: nat, upto: nat)
    requires upto <= |text|
  {
    forall i :: from <= i < upto ==> text[i] != c
  }

  lemma {:induction false} LastIs(text: string, c: char, upto: nat, k: nat)
    requires k <= upto < |text|
    ensures FindLast(text, c, upto) == Some(k) <==> text[k] == c && Without(text, c, k + 1, upto + 1)
  {
    if text[upto] != c && k < upto {
      LastIs(text, c, upto - 1, k);
    }
  }

  lemma {:induction false} NoLast(text: string, c: char, upto: nat)
    requires upto < |text|
    ensures FindLast(text, c, upto) == None <==> Without(text, c, 0, upto + 1)
  {
    if text[upto] != c && upto > 0 {
      NoLast(text, c, upto - 1);
    }
  }

  predicate SchemeAt(text: string, k: nat) {
    k + 2 < |text| && text[k] == ':' && text[k + 1] == '/' && text[k + 2] == '/'
  }

  /** The first "://" at or after `from`; the length when there is none. */
  function FindScheme(text: string, from: nat): (k: nat)
    requires from <= |text|
    ensures from <= k <= |text|
    decreases |text| - from
  {
    if from == |text| || SchemeAt(text, from) then from else FindScheme(text, from + 1)
  }

  /** No "://" is found beyond one that is there. */
  lemma {:induction false} SchemeBefore(text: string, from: nat, k: nat)
    requires from <= k && SchemeAt(text, k)
    ensures FindScheme(text, from) <= k && SchemeAt(text, FindScheme(text, from))
    decreases k - from
  {
    if !SchemeAt(text, from) {
      SchemeBefore(text, from + 1, k);
    }
  }

  /** `text` is the input with the slash that the parser appends. */
  datatype Url = Url(text: string, proto: SubString, login: SubString, pass: SubString,
                     host: SubString, port: SubString, tail: SubString, valid: bool)

  function Fresh(input: string): Url {
    Url(input + "/", EMPTY, EMPTY, EMPTY, EMPTY, EMPTY, EMPTY, false)
  }

  /** The character at `i` is one of the two slashes of a "://" that ends at or before `offset`. */
  predicate InScheme(text: string, i: nat, offset: nat) {
    || (i >= 1 && SchemeAt(text, i - 1) && i + 2 <= offset)
    || (i >= 2 && SchemeAt(text, i - 2) && i + 1 <= offset)
  }

  ghost predicate SlashesConsumed(text: string, offset: nat)
    requires offset <= |text|
  {
    forall i {:trigger InScheme(text, i, offset)} :: 0 <= i < offset && text[i] == '/' ==> InScheme(text, i, offset)
  }

  ghost predicate Bounded(u: Url) {
    var n := |u.text|;
    && InBounds(u.proto, n) && InBounds(u.login, n) && InBounds(u.pass, n)
    && InBounds(u.host, n) && InBounds(u.port, n) && InBounds(u.tail, n)
  }

  /** A port, once found, runs from a colon after the scheme up to a slash at the offset. */
  ghost predicate PortBefore(u: Url, offset: nat) {
    && 0 < u.port.begin <= u.port.end == offset < |u.text| && u.text[offset] == '/'
    && u.text[u.port.begin - 1] == ':'
    && (forall i :: u.port.begin <= i < offset ==> IsDigit(u.text[i]))
    && (Nonempty(u.proto) ==> u.proto.end + 3 < u.port.begin)
  }

  /** What the parser has established when it is about to look at `offset`. */
  ghost predicate Inv(u: Url, offset: nat) {
    && 0 < |u.text| && u.text[|u.text| - 1] == '/' && offset <= |u.text| && Bounded(u)
    && SlashesConsumed(u.text, offset)
    && (Nonempty(u.proto) ==> SchemeAt(u.text, u.proto.end) && u.proto.end + 3 <= offset)
    && (Nonempty(u.login) ==> u.login.end < offset && u.text[u.login.end] == ':')
    && (Nonempty(u.pass) ==> u.pass.end < offset && u.text[u.pass.end] == '@')
    && (Nonempty(u.port) ==> PortBefore(u, offset))
  }

  /** Whether a part was recognised, and where the parser goes on. */
  datatype Fill = Fill(ok: bool, url: Url, offset: nat)

  /** The invariant holds at the new offset, the text is kept and the offset has not gone back. */
  ghost predicate Keeps(u: Url, offset: nat, f: Fill) {
    f.ok ==> Inv(f.url, f.offset) && f.url.text == u.text && f.url.valid == u.valid && offset < f.offset
  }

  function FillProto(u: Url, offset: nat): Fill
    requires offset < |u.text|
  {
    if Nonempty(u.proto) || offset + 2 >= |u.text| || !SchemeAt(u.text, offset) then Fill(false, u, offset)
    else Fill(true, u.(proto := Set(0, offset)), offset + 3)
  }

  /** Where the host begins: after the last '@' when there is a password, after the first "://" when there is a scheme. */
  function HostBegin(u: Url, offset: nat): (k: nat)
    requires Inv(u, offset)
    ensures k <= offset
  {
    if Nonempty(u.pass) then
      NoLast(u.text, '@', offset - 1);
      FindLast(u.text, '@', offset - 1).value + 1
    else if Nonempty(u.proto) then
      SchemeBefore(u.text, 0, u.proto.end);
      FindScheme(u.text, 0) + 3
    else 0
  }

  function HostEnd(u: Url, offset: nat): (k: nat)
    requires Inv(u, offset) && offset < |u.text|
    ensures HostBegin(u, offset) <= k <= offset
  {
    HostInOrder(u, offset);
    if Nonempty(u.port) then FindLast(u.text, ':', offset).value else offset
  }

  /** The last colon before the slash that ends a port is the port's own, and the host begins before it. */
  lemma HostInOrder(u: Url, offset: nat)
    requires Inv(u, offset) && offset < |u.text|
    ensures Nonempty(u.port) ==> FindLast(u.text, ':', offset) == Some(u.port.begin - 1)
    ensures Nonempty(u.port) ==> HostBegin(u, offset) < u.port.begin
  {
    if Nonempty(u.port) {
      LastIs(u.text, ':', offset, u.port.begin - 1);
      if Nonempty(u.pass) {
        NoLast(u.text, '@', offset - 1);
        var at := FindLast(u.text, '@', offset - 1).value;
        LastIs(u.text, '@', offset - 1, at);
      } else if Nonempty(u.proto) {
        SchemeBefore(u.text, 0, u.proto.end);
      }
    }
  }

  function FillHost(u: Url, offset: nat): Url
    requires Inv(u, offset) && offset < |u.text|
  {
    u.(host := Set(HostBegin(u, offset), HostEnd(u, offset)))
  }

  /** The digits after a colon, when there are some and a slash follows them. */
  predicate PortAt(text: string, offset: nat, end: nat) {
    offset + 1 < end < |text| && text[end] == '/'
  }

  lemma PortFound(u: Url, offset: nat, end: nat)
    requires Inv(u, offset) && offset < |u.text| && u.text[offset] == ':'
    requires end == FindNonDigit(u.text, offset + 1) && PortAt(u.text, offset, end)
    ensures Inv(u.(port := Set(offset + 1, end)), end)
  {
    NonDigitIs(u.text, offset + 1, end);
    SkipSlashes(u.text, offset, end);
  }

  /** Digits up to a slash are a port; the host before it is then known as well. */
  function FillPort(u: Url, offset: nat): Fill
    requires Inv(u, offset) && offset < |u.text| && u.text[offset] == ':'
  {
    var end := FindNonDigit(u.text, offset + 1);
    if Nonempty(u.port) || !PortAt(u.text, offset, end) then Fill(false, u, offset)
    else
      PortFound(u, offset, end);
      Fill(true, FillHost(u.(port := Set(offset + 1, end)), end), end)
  }

  /** The last slash before a colon is the second of a consumed "://". */
  lemma LastSlash(u: Url, offset: nat)
    requires Inv(u, offset) && offset < |u.text| && u.text[offset] == ':'
    ensures var slash := FindLast(u.text, '/', offset);
      slash.Some? ==> 2 <= slash.value < offset && SchemeAt(u.text, slash.value - 2)
  {
    var slash := FindLast(u.text, '/', offset);
    if slash.Some? {
      LastIs(u.text, '/', offset, slash.value);
      assert InScheme(u.text, slash.value, offset);
    }
  }

  /** The text since the last slash, or since the start, is a login; another slash must stand before the last one. */
  function FillLogin(u: Url, offset: nat): Fill
    requires Inv(u, offset) && offset < |u.text| && u.text[offset] == ':'
  {
    if Nonempty(u.login) then Fill(false, u, offset)
    else
      var slash := FindLast(u.text, '/', offset);
      if slash.None? then Fill(true, u.(login := Set(0, offset)), offset + 1)
      else
        LastSlash(u, offset);
        if u.text[slash.value - 1] == '/' then Fill(true, u.(login := Set(slash.value + 1, offset)), offset + 1)
        else Fill(false, u, offset)
  }

  /** The text since the last colon is a password, if there is a login before it. */
  function FillPass(u: Url, offset: nat): Fill
    requires Inv(u, offset) && offset < |u.text| && u.text[offset] == '@'
  {
    if Nonempty(u.pass) || !Nonempty(u.login) then Fill(false, u, offset)
    else
      NoLast(u.text, ':', offset - 1);
      Fill(true, u.(pass := Set(FindLast(u.text, ':', offset - 1).value + 1, offset)), offset + 1)
  }

  function FillTail(u: Url, offset: nat): Url
    requires Inv(u, offset) && offset < |u.text|
  {
    FillHost(u, offset).(tail := Set(offset + 1, |u.text|))
  }

  /** Text without slashes adds none to those consumed. */
  lemma SkipSlashes(text: string, offset: nat, d: nat)
    requires offset <= d <= |text| && SlashesConsumed(text, offset)
    requires Without(text, '/', offset, d)
    ensures SlashesConsumed(text, d)
  {
    forall i | 0 <= i < d && text[i] == '/' ensures InScheme(text, i, d) {
      assert InScheme(text, i, offset);
    }
  }

  /** The characters skipped on the way to a delimiter change nothing, and there is always a delimiter. */
  lemma SkipKeepsInv(u: Url, offset: nat)
    requires Inv(u, offset) && offset < |u.text|
    ensures var d := FindDelimiter(u.text, offset);
      d < |u.text| && IsDelimiter(u.text[d]) && Inv(u, d) && (Nonempty(u.port) ==> u.text[d] == '/')
  {
    var d := FindDelimiter(u.text, offset);
    DelimiterIs(u.text, offset, d);
    assert IsDelimiter(u.text[|u.text| - 1]);
    SkipSlashes(u.text, offset, d);
  }

  lemma ProtoKeepsInv(u: Url, offset: nat)
    requires Inv(u, offset) && offset < |u.text| && !Nonempty(u.port)
    ensures Keeps(u, offset, FillProto(u, offset))
  {
    var f := FillProto(u, offset);
    if f.ok {
      forall i | 0 <= i < f.offset && u.text[i] == '/' ensures InScheme(u.text, i, f.offset) {
        if i < offset {
          assert InScheme(u.text, i, offset);
        }
      }
    }
  }

  lemma PortKeepsInv(u: Url, offset: nat)
    requires Inv(u, offset) && offset < |u.text| && u.text[offset] == ':'
    ensures Keeps(u, offset, FillPort(u, offset))
  {
    var end := FindNonDigit(u.text, offset + 1);
    if FillPort(u, offset).ok {
      PortFound(u, offset, end);
    }
  }

  lemma LoginKeepsInv(u: Url, offset: nat)
    requires Inv(u, offset) && offset < |u.text| && u.text[offset] == ':' && !Nonempty(u.port)
    ensures Keeps(u, offset, FillLogin(u, offset))
  {
    LastSlash(u, offset);
    SkipSlashes(u.text, offset, offset + 1);
  }

  lemma PassKeepsInv(u: Url, offset: nat)
    requires Inv(u, offset) && offset < |u.text| && u.text[offset] == '@' && !Nonempty(u.port)
    ensures Keeps(u, offset, FillPass(u, offset))
  {
    SkipSlashes(u.text, offset, offset + 1);
  }

  /** A colon ends a scheme, precedes a port or ends a login, tried in this order. */
  function FillColon(u: Url, offset: nat): (f: Fill)
    requires Inv(u, offset) && offset < |u.text| && u.text[offset] == ':' && !Nonempty(u.port)
    ensures Keeps(u, offset, f)
  {
    ProtoKeepsInv(u, offset);
    PortKeepsInv(u, offset);
    LoginKeepsInv(u, offset);
    if FillProto(u, offset).ok then FillProto(u, offset)
    else if FillPort(u, offset).ok then FillPort(u, offset)
    else FillLogin(u, offset)
  }

  /** What one turn of the parser's loop leads to: another turn, the end, or a failed assertion. */
  datatype Turned = Go(url: Url, offset: nat) | Done(url: Url) | Failed

  function GoOn(f: Fill): Turned { if f.ok then Go(f.url, f.offset) else Failed }

  function Turn(u: Url, offset: nat): (t: Turned)
    requires Inv(u, offset) && offset < |u.text|
    ensures t.Go? ==> Inv(t.url, t.offset) && t.url.text == u.text && offset < t.offset && t.url.valid == u.valid
    ensures t.Done? ==> t.url.valid && t.url.text == u.text && Bounded(t.url)
  {
    SkipKeepsInv(u, offset);
    var d := FindDelimiter(u.text, offset);
    if u.text[d] == ':' then GoOn(FillColon(u, d))
    else if u.text[d] == '/' then Done(FillTail(u, d).(valid := true))
    else
      PassKeepsInv(u, d);
      GoOn(FillPass(u, d))
  }

  datatype Outcome = Parsed(url: Url) | AssertFailed

  /** The parser's loop from `offset` on. */
  function ParseFrom(u: Url, offset: nat): (r: Outcome)
    requires Inv(u, offset)
    ensures r.Parsed? ==> r.url.valid && r.url.text == u.text && Bounded(r.url)
    decreases |u.text| - offset
  {
    if offset >= |u.text| then Parsed(u.(valid := true))
    else
      var t := Turn(u, offset);
      match t
      case Go(v, next) => ParseFrom(v, next)
      case Done(v) => Parsed(v)
      case Failed => AssertFailed
  }

  function Parse(input: string): (r: Outcome)
    ensures r.Parsed? ==> r.url.valid && r.url.text == input + "/" && Bounded(r.url)
  {
    ParseFrom(Fresh(input), 0)
  }
}
