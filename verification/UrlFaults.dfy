/**
 Which texts the parser of common/url.cpp rejects, said of their delimiters alone. A text is scanned up to its
 first slash outside the schemes; a colon there is a scheme's, a port's or a login's.
 */
module UrlFaults {
  import opened Wrappers
  import opened SubString
  import opened Url

  /** The "://" that may be taken for a scheme: one at the very start, and the first one after the start. */
  predicate Scheme(t: string, k: nat) {
    SchemeAt(t, k) && (k == 0 || forall j: nat {:trigger SchemeAt(t, j)} :: 0 < j < k ==> !SchemeAt(t, j))
  }

  predicate InSchemes(t: string, i: nat) {
    Scheme(t, i) || (i >= 1 && Scheme(t, i - 1)) || (i >= 2 && Scheme(t, i - 2))
  }

  /** Every slash before `d` is a scheme's. */
  ghost predicate Unstopped(t: string, d: nat)
    requires d <= |t|
  {
    forall q: nat {:trigger InSchemes(t, q)} :: q < d && t[q] == '/' ==> InSchemes(t, q)
  }

  predicate EndsPort(t: string, c: nat, e: nat) { c + 1 < e < |t| && t[e] == '/' && AllDigits(t, c + 1, e) }

  /** A colon with a number and a slash after it. */
  ghost predicate PortColon(t: string, c: nat) { c < |t| && t[c] == ':' && exists e: nat :: EndsPort(t, c, e) }

  /** A delimiter that must be a login's or a password's, or is out of place. */
  ghost predicate Active(t: string, d: nat) {
    d < |t| && (t[d] == ':' || t[d] == '@') && Unstopped(t, d) && !InSchemes(t, d) && !PortColon(t, d)
  }

  /** An active colon with a login before it. */
  ghost predicate LoginColon(t: string, c: nat) { Active(t, c) && t[c] == ':' && c > 0 && t[c - 1] != '/' }

  /** An active '@' with a password before it. */
  ghost predicate PassAt(t: string, a: nat) { Active(t, a) && t[a] == '@' && a > 0 && t[a - 1] != ':' }

  ghost predicate LoginBefore(t: string, d: nat) { exists c: nat :: c < d && LoginColon(t, c) }

  ghost predicate PassBefore(t: string, d: nat) { exists a: nat :: a < d && PassAt(t, a) }

  ghost predicate ProtoBefore(t: string, d: nat) { exists k: nat :: 0 < k < d && Scheme(t, k) }

  /** A delimiter out of place: a colon after a login's, an '@' without a login, or one after a password's. */
  ghost predicate Fault(t: string, d: nat) {
    Active(t, d) && if t[d] == ':' then LoginBefore(t, d) else !LoginBefore(t, d) || PassBefore(t, d)
  }

  ghost predicate FaultFrom(t: string, o: nat) { exists d: nat :: o <= d && Fault(t, d) }

  /** What the parser knows when it gets to `o`: which of its parts the delimiters before have given it. */
  ghost predicate Reached(u: Url, o: nat) {
    && Inv(u, o) && !Nonempty(u.port) && Unstopped(u.text, o)
    && (Nonempty(u.proto) <==> ProtoBefore(u.text, o))
    && (Nonempty(u.login) <==> LoginBefore(u.text, o))
    && (Nonempty(u.pass) <==> PassBefore(u.text, o))
    && forall k: nat {:trigger Scheme(u.text, k)} :: k < o && Scheme(u.text, k) ==> k + 3 <= o
  }

  /** Nothing happens at characters that are not delimiters. */
  lemma Skipped(u: Url, o: nat, d: nat)
    requires Reached(u, o) && o <= d < |u.text| && NoDelimiter(u.text, o, d) && IsDelimiter(u.text[d])
    ensures Reached(u, d) && (FaultFrom(u.text, o) <==> FaultFrom(u.text, d))
  {
    DelimiterIs(u.text, o, d);
    SkipKeepsInv(u, o);
    var t := u.text;
    forall q: nat | q < d && t[q] == '/' ensures InSchemes(t, q) {
      assert q < o;
    }
    assert forall c: nat :: c < d && LoginColon(t, c) ==> c < o;
    assert forall c: nat :: c < d && PassAt(t, c) ==> c < o;
    assert forall c: nat :: c < d && Scheme(t, c) ==> c < o;
    assert forall c: nat :: o <= c && Fault(t, c) ==> d <= c;
  }

  /** A delimiter that the parser has got to is in a scheme only as its colon. */
  lemma NotInside(u: Url, d: nat)
    requires Reached(u, d) && d < |u.text|
    ensures InSchemes(u.text, d) <==> Scheme(u.text, d)
  {
  }

  /** The first of several "://". */
  lemma {:induction false} FirstScheme(t: string, j: nat) returns (k: nat)
    requires 0 < j && SchemeAt(t, j)
    ensures 0 < k <= j && Scheme(t, k)
    decreases j
  {
    k := j;
    if i: nat :| 0 < i < j && SchemeAt(t, i) {
      k := FirstScheme(t, i);
    }
  }

  /** A colon is taken for a scheme's exactly when it is one. */
  lemma ProtoTaken(u: Url, d: nat)
    requires Reached(u, d) && d < |u.text| && u.text[d] == ':'
    ensures FillProto(u, d).ok <==> Scheme(u.text, d)
  {
    if SchemeAt(u.text, d) && !Scheme(u.text, d) {
      var j: nat :| 0 < j < d && SchemeAt(u.text, j);
      var k := FirstScheme(u.text, j);
    }
  }

  /** A colon is taken for a port's exactly when it is one. */
  lemma PortTaken(u: Url, d: nat)
    requires Reached(u, d) && d < |u.text| && u.text[d] == ':'
    ensures FillPort(u, d).ok <==> PortColon(u.text, d)
    ensures FillPort(u, d).ok ==> EndsPort(u.text, d, FillPort(u, d).offset)
  {
    var t, end := u.text, FindNonDigit(u.text, d + 1);
    NonDigitIs(t, d + 1, end);
    if PortColon(t, d) {
      var e: nat :| EndsPort(t, d, e);
      NonDigitIs(t, d + 1, e);
      assert e == end;
    }
    if PortAt(t, d, end) {
      assert EndsPort(t, d, end);
    }
  }

  /** A scheme is passed as a whole. */
  lemma AfterScheme(u: Url, d: nat)
    requires Reached(u, d) && d < |u.text| && Scheme(u.text, d)
    ensures var v := FillProto(u, d).url; Reached(v, d + 3) && (FaultFrom(u.text, d) <==> FaultFrom(u.text, d + 3))
  {
    var t := u.text;
    ProtoTaken(u, d);
    ProtoKeepsInv(u, d);
    forall q: nat | q < d + 3 && t[q] == '/' ensures InSchemes(t, q) {
      if q >= d {
        assert q == d + 1 || q == d + 2;
      }
    }
    assert InSchemes(t, d);
    assert forall c: nat :: c < d + 3 && LoginColon(t, c) ==> c < d;
    assert forall c: nat :: c < d + 3 && PassAt(t, c) ==> c < d;
    assert forall c: nat :: d <= c && Fault(t, c) ==> d + 3 <= c;
    assert forall k: nat :: k < d + 3 && Scheme(t, k) ==> k <= d;
  }

  /** A slash outside the schemes ends the scan. */
  lemma NothingAfterStop(t: string, q: nat, o: nat)
    requires q < |t| && t[q] == '/' && !InSchemes(t, q) && o <= q
    requires forall d: nat :: o <= d < q ==> !Active(t, d)
    ensures !FaultFrom(t, o)
  {
    forall d: nat | o <= d ensures !Active(t, d) {
      if q < d < |t| {
        assert !Unstopped(t, d);
      }
    }
  }

  lemma SlashAfterPort(t: string, c: nat, e: nat)
    requires EndsPort(t, c, e) && t[c] == ':'
    ensures !InSchemes(t, e)
  {
    assert IsDigit(t[e - 1]) && IsDigit(t[c + 1]);
  }

  /** After a port only the tail is left. */
  lemma AfterPort(u: Url, d: nat)
    requires Reached(u, d) && d < |u.text| && u.text[d] == ':' && PortColon(u.text, d) && !Scheme(u.text, d)
    ensures var f := FillPort(u, d); f.ok && Inv(f.url, f.offset) && ParseFrom(f.url, f.offset).Parsed?
    ensures !FaultFrom(u.text, d)
  {
    PortTaken(u, d);
    PortKeepsInv(u, d);
    var f := FillPort(u, d);
    SlashAfterPort(u.text, d, f.offset);
    DelimiterIs(u.text, f.offset, f.offset);
    forall c: nat | d <= c < f.offset ensures !Active(u.text, c) {
      if c > d {
        assert IsDigit(u.text[c]);
      }
    }
    NothingAfterStop(u.text, f.offset, d);
  }

  /** What one more character adds, when it is not a slash and no scheme begins there. */
  lemma OneOn(t: string, d: nat)
    requires d < |t| && t[d] != '/' && !Scheme(t, d) && Unstopped(t, d)
    ensures Unstopped(t, d + 1)
    ensures LoginBefore(t, d + 1) <==> LoginBefore(t, d) || LoginColon(t, d)
    ensures PassBefore(t, d + 1) <==> PassBefore(t, d) || PassAt(t, d)
    ensures ProtoBefore(t, d + 1) <==> ProtoBefore(t, d)
  {
    assert forall c: nat :: c < d + 1 && LoginColon(t, c) ==> c < d || c == d;
    assert forall c: nat :: c < d + 1 && PassAt(t, c) ==> c < d || c == d;
    assert forall c: nat :: c < d + 1 && Scheme(t, c) ==> c < d;
  }

  lemma FaultMoves(t: string, d: nat)
    ensures FaultFrom(t, d) <==> Fault(t, d) || FaultFrom(t, d + 1)
  {
    assert forall c: nat :: d <= c && Fault(t, c) ==> c == d || d + 1 <= c;
  }

  /** A colon that is neither a scheme's nor a port's is the login's, or out of place. */
  lemma AfterLogin(u: Url, d: nat)
    requires Reached(u, d) && d < |u.text| && u.text[d] == ':' && Active(u.text, d)
    ensures FillLogin(u, d).ok <==> !Fault(u.text, d)
    ensures FillLogin(u, d).ok ==> FillLogin(u, d).offset == d + 1 && Reached(FillLogin(u, d).url, d + 1)
  {
    LoginKeepsInv(u, d);
    LastSlash(u, d);
    OneOn(u.text, d);
    if FillLogin(u, d).ok {
      LoginIsNonempty(u, d);
    }
  }

  lemma LoginIsNonempty(u: Url, d: nat)
    requires Reached(u, d) && d < |u.text| && u.text[d] == ':' && FillLogin(u, d).ok
    ensures Nonempty(FillLogin(u, d).url.login) <==> d > 0 && u.text[d - 1] != '/'
  {
    var slash := FindLast(u.text, '/', d);
    LastSlash(u, d);
    if slash.Some? {
      LastIs(u.text, '/', d, slash.value);
    } else {
      NoLast(u.text, '/', d);
    }
  }

  /** An '@' ends the password, or is out of place. */
  lemma AfterPass(u: Url, d: nat)
    requires Reached(u, d) && d < |u.text| && u.text[d] == '@'
    ensures FillPass(u, d).ok <==> !Fault(u.text, d)
    ensures FillPass(u, d).ok ==> FillPass(u, d).offset == d + 1 && Reached(FillPass(u, d).url, d + 1)
  {
    NotInside(u, d);
    assert Active(u.text, d);
    PassKeepsInv(u, d);
    OneOn(u.text, d);
    if FillPass(u, d).ok {
      PassIsNonempty(u, d);
    }
  }

  lemma PassIsNonempty(u: Url, d: nat)
    requires Reached(u, d) && d < |u.text| && u.text[d] == '@' && FillPass(u, d).ok
    ensures d > 0 && (Nonempty(FillPass(u, d).url.pass) <==> u.text[d - 1] != ':')
  {
    NoLast(u.text, ':', d - 1);
    LastIs(u.text, ':', d - 1, FindLast(u.text, ':', d - 1).value);
  }

  /** What a turn at the delimiter `d` means: where it goes on, the same faults are ahead. */
  ghost predicate TurnSays(text: string, d: nat, turned: Turned) {
    match turned
    case Go(v, n) =>
      || (v.text == text && Reached(v, n) && (FaultFrom(text, d) <==> FaultFrom(text, n)))
      || (Inv(v, n) && ParseFrom(v, n).Parsed? && !FaultFrom(text, d))
    case Done(_) => !FaultFrom(text, d)
    case Failed => FaultFrom(text, d)
  }

  lemma SlashSays(u: Url, d: nat)
    requires Reached(u, d) && d < |u.text| && u.text[d] == '/'
    ensures !FaultFrom(u.text, d)
  {
    NotInside(u, d);
    NothingAfterStop(u.text, d, d);
  }

  lemma AtSays(u: Url, d: nat)
    requires Reached(u, d) && d < |u.text| && u.text[d] == '@'
    ensures TurnSays(u.text, d, GoOn(FillPass(u, d)))
  {
    AfterPass(u, d);
    FaultMoves(u.text, d);
    PassKeepsInv(u, d);
  }

  lemma LoginSays(u: Url, d: nat)
    requires Reached(u, d) && d < |u.text| && u.text[d] == ':' && !Scheme(u.text, d) && !PortColon(u.text, d)
    ensures TurnSays(u.text, d, GoOn(FillLogin(u, d)))
  {
    NotInside(u, d);
    AfterLogin(u, d);
    FaultMoves(u.text, d);
    LoginKeepsInv(u, d);
  }

  lemma ColonSays(u: Url, d: nat)
    requires Reached(u, d) && d < |u.text| && u.text[d] == ':'
    ensures TurnSays(u.text, d, GoOn(FillColon(u, d)))
  {
    ProtoTaken(u, d);
    PortTaken(u, d);
    if Scheme(u.text, d) {
      AfterScheme(u, d);
    } else if PortColon(u.text, d) {
      AfterPort(u, d);
    } else {
      LoginSays(u, d);
    }
  }

  lemma OneTurn(u: Url, o: nat) returns (d: nat)
    requires Reached(u, o) && o < |u.text|
    ensures (FaultFrom(u.text, o) <==> FaultFrom(u.text, d)) && TurnSays(u.text, d, Turn(u, o))
  {
    d := FindDelimiter(u.text, o);
    SkipKeepsInv(u, o);
    DelimiterIs(u.text, o, d);
    Skipped(u, o, d);
    if u.text[d] == '/' {
      SlashSays(u, d);
    } else if u.text[d] == '@' {
      AtSays(u, d);
    } else {
      ColonSays(u, d);
    }
  }

  /** From any point on, the parser fails an assertion exactly when a delimiter from there on is out of place. */
  lemma {:induction false} FailsIffFault(u: Url, o: nat)
    requires Reached(u, o)
    ensures ParseFrom(u, o).AssertFailed? <==> FaultFrom(u.text, o)
    decreases |u.text| - o
  {
    if o < |u.text| {
      var d := OneTurn(u, o);
      var turned := Turn(u, o);
      if turned.Go? && Reached(turned.url, turned.offset) {
        FailsIffFault(turned.url, turned.offset);
      }
    }
  }

  /** The parser fails an assertion exactly on the texts that have a delimiter out of place. */
  lemma ParseFailsIff(input: string)
    ensures Parse(input) == AssertFailed <==> exists d: nat :: Fault(input + "/", d)
  {
    var u := Fresh(input);
    assert Reached(u, 0);
    FailsIffFault(u, 0);
  }

  /** Text without slashes and without a login's colon before an '@' is rejected there. */
  lemma LonelyAt(t: string, d: nat)
    requires d < |t| && t[d] == '@' && Unstopped(t, d)
    requires forall c: nat :: c < d && t[c] == ':' ==> InSchemes(t, c)
    ensures Fault(t, d)
  {
    assert !InSchemes(t, d) && !PortColon(t, d);
  }

  predicate Plain(s: string) { forall i :: 0 <= i < |s| ==> !IsDelimiter(s[i]) }

  /** A user without a colon after it is rejected, whatever follows the '@'. */
  lemma UserAlone(a: string, b: string)
    requires Plain(a)
    ensures Parse(a + "@" + b) == AssertFailed
  {
    var t := a + "@" + b + "/";
    assert forall i :: 0 <= i < |a| ==> t[i] == a[i];
    assert t[|a|] == '@';
    LonelyAt(t, |a|);
    ParseFailsIff(a + "@" + b);
  }

  /** And so it is after a scheme. */
  lemma UserAloneAfterScheme(proto: string, a: string, b: string)
    requires Plain(proto) && Plain(a)
    ensures Parse(proto + "://" + a + "@" + b) == AssertFailed
  {
    var t, n := proto + "://" + a + "@" + b + "/", |proto|;
    assert forall i :: 0 <= i < n ==> t[i] == proto[i];
    assert t[n] == ':' && t[n + 1] == '/' && t[n + 2] == '/';
    assert forall i :: 0 <= i < |a| ==> t[n + 3 + i] == a[i];
    assert forall i :: n + 3 <= i < n + 3 + |a| ==> !IsDelimiter(t[i]) by {
      assert forall i :: n + 3 <= i < n + 3 + |a| ==> t[i] == a[i - n - 3];
    }
    assert Scheme(t, n) && InSchemes(t, n) && InSchemes(t, n + 1) && InSchemes(t, n + 2);
    assert t[n + 3 + |a|] == '@';
    LonelyAt(t, n + 3 + |a|);
    ParseFailsIff(proto + "://" + a + "@" + b);
  }
}
