/** The URL parser of common/url.cpp as the object that the source makes it. */
module UrlParser {
  import opened Wrappers
  import S = SubString
  import U = Url

  class Parser {
    var text: string
    const proto: S.Span
    const login: S.Span
    const pass: S.Span
    const host: S.Span
    const port: S.Span
    const tail: S.Span
    var valid: bool

    ghost predicate Distinct() {
      && proto != login && proto != pass && proto != host && proto != port && proto != tail
      && login != pass && login != host && login != port && login != tail
      && pass != host && pass != port && pass != tail
      && host != port && host != tail && port != tail
    }

    ghost function State(): U.Url
      reads this, proto, login, pass, host, port, tail
    {
      U.Url(text, proto.Value(), login.Value(), pass.Value(), host.Value(), port.Value(), tail.Value(), valid)
    }

    constructor ()
      ensures Distinct() && State() == U.Fresh("").(text := "")
      ensures fresh(proto) && fresh(login) && fresh(pass) && fresh(host) && fresh(port) && fresh(tail)
    {
      text, valid := "", false;
      proto := new S.Span();
      login := new S.Span();
      pass := new S.Span();
      host := new S.Span();
      port := new S.Span();
      tail := new S.Span();
    }

    method FillProto(offset: nat) returns (ok: bool, next: nat)
      requires Distinct() && offset < |text|
      modifies proto
      ensures U.Fill(ok, State(), next) == U.FillProto(old(State()), offset)
    {
      if proto.length > 0 || offset + 2 >= |text| {
        return false, offset;
      }
      if text[offset] == ':' && text[offset + 1] == '/' && text[offset + 2] == '/' {
        proto.Set(0, offset);
        return true, offset + 3;
      }
      return false, offset;
    }

    method FillHost(offset: nat)
      requires Distinct() && U.Inv(State(), offset) && offset < |text|
      modifies host
      ensures State() == U.FillHost(old(State()), offset)
    {
      var begin := 0;
      var end := offset;
      ghost var u := State();
      U.HostInOrder(u, offset);
      if pass.length > 0 {
        U.NoLast(text, '@', offset - 1);
        begin := U.FindLast(text, '@', offset - 1).value;
        begin := begin + 1;
      } else if proto.length > 0 {
        begin := U.FindScheme(text, 0);
        begin := begin + 3;
      }
      assert begin == U.HostBegin(u, offset);
      if port.length > 0 {
        end := U.FindLast(text, ':', offset).value;
      }
      host.Set(begin, end);
    }

    method FillPort(offset: nat) returns (ok: bool, next: nat)
      requires Distinct() && U.Inv(State(), offset) && offset < |text| && text[offset] == ':'
      modifies port, host
      ensures U.Fill(ok, State(), next) == U.FillPort(old(State()), offset)
    {
      if port.length > 0 {
        return false, offset;
      }
      var end := U.FindNonDigit(text, offset + 1);
      if end < |text| && text[end] == '/' && end - offset > 1 {
        ghost var u := State();
        U.PortFound(u, offset, end);
        port.Set(offset + 1, end);
        assert State() == u.(port := S.Set(offset + 1, end));
        FillHost(end);
        return true, end;
      }
      return false, offset;
    }

    method FillLogin(offset: nat) returns (ok: bool, next: nat)
      requires Distinct() && U.Inv(State(), offset) && offset < |text| && text[offset] == ':'
      modifies login
      ensures U.Fill(ok, State(), next) == U.FillLogin(old(State()), offset)
    {
      if login.length > 0 {
        return false, offset;
      }
      var slash := U.FindLast(text, '/', offset);
      U.LastSlash(State(), offset);
      if slash.None? {
        login.Set(0, offset);
      } else if text[slash.value - 1] == '/' {
        login.Set(slash.value + 1, offset);
      } else {
        return false, offset;
      }
      return true, offset + 1;
    }

    method FillPass(offset: nat) returns (ok: bool, next: nat)
      requires Distinct() && U.Inv(State(), offset) && offset < |text| && text[offset] == '@'
      modifies pass
      ensures U.Fill(ok, State(), next) == U.FillPass(old(State()), offset)
    {
      if pass.length > 0 || login.length == 0 {
        return false, offset;
      }
      U.NoLast(text, ':', offset - 1);
      pass.Set(U.FindLast(text, ':', offset - 1).value + 1, offset);
      return true, offset + 1;
    }

    method FillTail(offset: nat)
      requires Distinct() && U.Inv(State(), offset) && offset < |text|
      modifies host, tail
      ensures State() == U.FillTail(old(State()), offset)
    {
      FillHost(offset);
      tail.Set(offset + 1, |text|);
    }

    /** A colon: a scheme, a port or a login. */
    method FillColon(offset: nat) returns (ok: bool, next: nat)
      requires Distinct() && U.Inv(State(), offset) && offset < |text| && text[offset] == ':' && port.length == 0
      modifies proto, port, host, login
      ensures U.Fill(ok, State(), next) == U.FillColon(old(State()), offset)
    {
      ok, next := FillProto(offset);
      if !ok {
        ok, next := FillPort(offset);
        if !ok {
          ok, next := FillLogin(offset);
        }
      }
    }

    /** One turn of the loop: `next` is where to go on, unless the object is valid now or an assertion failed. */
    method Turn(offset: nat) returns (ok: bool, next: nat)
      requires Distinct() && U.Inv(State(), offset) && offset < |text| && !valid
      modifies `valid, proto, login, pass, host, port, tail
      ensures match U.Turn(old(State()), offset)
        case Go(v, n) => ok && State() == v && next == n
        case Done(v) => ok && State() == v
        case Failed => !ok
    {
      U.SkipKeepsInv(State(), offset);
      var d := U.FindDelimiter(text, offset);
      next := d;
      if text[d] == ':' {
        ok, next := FillColon(d);
      } else if text[d] == '/' {
        FillTail(d);
        valid := true;
        ok := true;
      } else {
        ok, next := FillPass(d);
      }
    }

    /** The loop; `ok` tells that no assertion failed. */
    method Parse(input: string) returns (ok: bool)
      requires Distinct() && State() == U.Fresh("").(text := State().text)
      modifies this, proto, login, pass, host, port, tail
      ensures ok <==> U.Parse(input).Parsed?
      ensures ok ==> State() == U.Parse(input).url
    {
      text := input + "/";
      ghost var result := U.Parse(input);
      assert State() == U.Fresh(input);
      var offset := 0;
      while offset < |text|
        invariant text == input + "/" && !valid && U.Inv(State(), offset)
        invariant U.ParseFrom(State(), offset) == result
        decreases |text| - offset
      {
        var going, next := Turn(offset);
        if !going {
          return false;
        }
        if valid {
          return true;
        }
        offset := next;
      }
      valid := true;
      return true;
    }
  }
}
