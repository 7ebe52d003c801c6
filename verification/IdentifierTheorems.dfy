/**
 * Parsing undoes the composition of identifiers, and how far: hosts, ports, and full user IDs.
 */
module IdentifierTheorems {
  import opened Characters
  import opened Options
  import opened Identifiers
  import opened QuadTheorems
  import IPv6Theorems

  predicate HostName(h: string) {
    1 <= |h| <= 255 && forall k :: 0 <= k < |h| ==> IsHostChar(h[k])
  }

  // A name, a bracketed literal or a dotted quad of any length.
  predicate ValidHost(h: string) {
    HostName(h) || IPv6(h) == Some(|h|) || Quad(h, DOTS)
  }

  predicate ValidPort(p: string) {
    1 <= |p| <= 5 && AllDigits(p) && Value(p) <= 65535
  }

  predicate ValidPart(part: ServerPart) {
    ValidHost(part.hostname) && (part.port.Some? ==> ValidPort(part.port.value))
  }

  // The digits and dots that open a host form a dotted quad but are not all of it.
  predicate OpensWithQuad(h: string) {
    var n := Run(h, DigitsAndDots);
    n < |h| && Quad(h[..n], DOTS)
  }

  // ---------- Server names ----------

  // The text behind the host: nothing, or a colon and the port.
  function Tail(part: ServerPart): string {
    if part.port.Some? then ":" + part.port.value else ""
  }

  lemma RecomposeIs(part: ServerPart)
    ensures Recompose(part) == part.hostname + Tail(part)
  {
  }

  // A run that ends inside the host, or at its end, is the same with the tail behind it.
  lemma RunOfHost(h: string, tail: string, kind: Kind)
    requires tail != "" ==> !Is(kind, tail[0])
    ensures Run(h + tail, kind) == Run(h, kind)
  {
    RunIs(h + tail, kind, Run(h, kind));
  }

  // What follows a host is nothing or begins with a colon.
  predicate IsTail(tail: string) {
    tail != "" ==> tail[0] == ':'
  }

  lemma QuadOfHost(h: string, tail: string, n: nat)
    requires IsTail(tail) && n == Run(h, DigitsAndDots)
    ensures IPv4(h + tail) == if Quad(h[..n], DOTS) then Some(n) else None
  {
    RunOfHost(h, tail, DigitsAndDots);
    assert (h + tail)[..n] == h[..n];
  }

  lemma NameOfHost(h: string, tail: string)
    requires HostName(h) && IsTail(tail)
    ensures Hostname(h + tail) == Some(|h|) && IPv6(h + tail) == None
  {
    RunOfHost(h, tail, HostChars);
    RunIs(h, HostChars, |h|);
    assert (h + tail)[0] == h[0] && IsHostChar(h[0]);
  }

  lemma NameReadBack(h: string, tail: string)
    requires HostName(h) && IsTail(tail)
    ensures Host(h + tail) == if OpensWithQuad(h) then Some(Run(h, DigitsAndDots)) else Some(|h|)
  {
    var n := Run(h, DigitsAndDots);
    QuadOfHost(h, tail, n);
    NameOfHost(h, tail);
    HostIs(h, h + tail, n);
  }

  lemma HostIs(h: string, t: string, n: nat)
    requires n == Run(h, DigitsAndDots) && Hostname(t) == Some(|h|) && IPv6(t) == None
    requires IPv4(t) == if Quad(h[..n], DOTS) then Some(n) else None
    ensures Host(t) == if OpensWithQuad(h) then Some(n) else Some(|h|)
  {
  }

  lemma LiteralReadBack(h: string, tail: string)
    requires IPv6(h) == Some(|h|)
    ensures Host(h + tail) == Some(|h|) && !OpensWithQuad(h)
  {
    var t := h + tail;
    IPv6Theorems.IPv6Prefix(h, tail);
    assert h[0] == '[' && t[0] == '[';
    RunIs(h, DigitsAndDots, 0);
    RunIs(t, DigitsAndDots, 0);
    assert h[..0] == "" && t[..0] == "";
    RunIs("", Digits, 0);
  }

  lemma QuadReadBack(h: string, tail: string)
    requires Quad(h, DOTS) && IsTail(tail)
    ensures Host(h + tail) == Some(|h|) && !OpensWithQuad(h)
  {
    QuadChars(h, DOTS);
    RunIs(h, DigitsAndDots, |h|);
    RunOfHost(h, tail, DigitsAndDots);
    assert (h + tail)[..|h|] == h;
  }

  lemma HostReadBack(h: string, tail: string)
    requires ValidHost(h) && IsTail(tail)
    ensures Host(h + tail) == if OpensWithQuad(h) then Some(Run(h, DigitsAndDots)) else Some(|h|)
    ensures OpensWithQuad(h) ==> HostName(h)
  {
    if Quad(h, DOTS) {
      QuadReadBack(h, tail);
    } else if HostName(h) {
      NameReadBack(h, tail);
    } else {
      LiteralReadBack(h, tail);
    }
  }

  lemma PortReadBack(p: string)
    requires ValidPort(p)
    ensures PortLength(p) == |p| && p[..|p|] == p
  {
    RunIs(p, Digits, |p|);
  }

  // Behind a host that ends at index n with neither a colon nor anything.
  lemma CutServer(t: string, n: nat)
    requires Host(t) == Some(n) && n < |t| && t[n] != ':'
    ensures ServerName(t) == Some(ServerPart(t[..n], None))
  {
  }

  lemma WholeServer(part: ServerPart, t: string)
    requires t == Recompose(part) && Host(t) == Some(|part.hostname|)
    requires part.port.Some? ==> ValidPort(part.port.value)
    ensures ServerName(t) == Some(part)
  {
    var h := part.hostname;
    assert t[..|h|] == h;
    if part.port.Some? {
      PortReadBack(part.port.value);
      assert t[|h| + 1..] == part.port.value;
    }
  }

  /**
   * A server name made of a valid host and port is read back as that host and port, unless the host opens with a
   * dotted quad without being one: then only the quad is read.
   */
  lemma ServerReadBack(part: ServerPart)
    requires ValidPart(part)
    ensures ServerName(Recompose(part)) == Some(part) <==> !OpensWithQuad(part.hostname)
    ensures OpensWithQuad(part.hostname) ==>
      ServerName(Recompose(part))
        == Some(ServerPart(part.hostname[..Run(part.hostname, DigitsAndDots)], None))
  {
    var h, t, tail := part.hostname, Recompose(part), Tail(part);
    RecomposeIs(part);
    HostReadBack(h, tail);
    if OpensWithQuad(h) {
      var n := Run(h, DigitsAndDots);
      assert t[n] == h[n] && IsHostChar(h[n]);
      CutServer(t, n);
      assert t[..n] == h[..n];
    } else {
      WholeServer(part, t);
    }
  }

  // The host that stands at the front of a text is one that is valid, and not cut.
  lemma HostIsValid(h: string, tail: string)
    requires Host(h + tail) == Some(|h|)
    ensures ValidHost(h) && !OpensWithQuad(h)
  {
    var t := h + tail;
    assert t[..|h|] == h;
    HostNonEmpty(t);
    if IPv4(t).Some? {
      QuadChars(h, DOTS);
      RunIs(h, DigitsAndDots, |h|);
    } else if IPv6(t).Some? {
      IPv6Theorems.IPv6Prefix(h, tail);
      LiteralReadBack(h, tail);
    } else {
      NameIsWhole(h, tail);
    }
  }

  lemma NameIsWhole(h: string, tail: string)
    requires IPv4(h + tail).None? && Hostname(h + tail) == Some(|h|)
    ensures HostName(h) && !OpensWithQuad(h)
  {
    var t := h + tail;
    forall k | 0 <= k < |h| ensures IsHostChar(h[k]) { assert t[k] == h[k]; }
    var n := Run(h, DigitsAndDots);
    assert t[..n] == h[..n];
    if OpensWithQuad(h) { RunIs(t, DigitsAndDots, n); }
  }

  lemma PortIsValid(p: string, t: string, n: nat)
    requires n < |t| && t[n] == ':' && t[n + 1..] == p && Host(t) == Some(n)
    ensures ServerName(t) == Some(ServerPart(t[..n], Some(p))) <==> ValidPort(p)
  {
    if ValidPort(p) { PortReadBack(p); }
  }

  /**
   * Exactly which server parts are read back from their composition: a valid port or none, and a host that is a dotted
   * quad, a bracketed literal, or a name that does not open with a quad.
   */
  lemma {:induction false} ServerExactly(part: ServerPart)
    ensures ServerName(Recompose(part)) == Some(part) <==> ValidPart(part) && !OpensWithQuad(part.hostname)
  {
    var h, t, tail := part.hostname, Recompose(part), Tail(part);
    RecomposeIs(part);
    if ValidPart(part) {
      ServerReadBack(part);
    } else if ServerName(t) == Some(part) {
      HostBounded(t);
      assert t[..|h|] == h;
      assert Host(t) == Some(|h|);
      HostIsValid(h, tail);
      if part.port.Some? {
        assert t[|h| + 1..] == part.port.value;
        PortIsValid(part.port.value, t, |h|);
      }
    }
  }

  /**
   * Every valid host made of a dotted quad and something else behind it that is not a digit or dot is cut after the
   * quad, with its port, if any, lost.
   */
  lemma {:induction false} QuadHostIsCut(quad: string, more: string, port: Option<string>)
    requires IsDottedQuad(quad) && more != "" && !IsDigitOrDot(more[0])
    requires ValidPart(ServerPart(quad + more, port))
    ensures OpensWithQuad(quad + more)
    ensures ServerName(Recompose(ServerPart(quad + more, port))) == Some(ServerPart(quad, None))
  {
    var h := quad + more;
    QuadExactly(quad);
    QuadChars(quad, DOTS);
    RunIs(h, DigitsAndDots, |quad|);
    assert h[..|quad|] == quad;
    ServerReadBack(ServerPart(h, port));
  }

  lemma ExampleQuad(t: string, d: string)
    requires t == "1.2.3." + d && AllDigits(d)
    ensures IsDottedQuad(t)
  {
    var a, b, c := "1", "2", "3";
    assert Value(a[..0]) == Value(b[..0]) == Value(c[..0]) == 0;
    assert IsGroup(a) && IsGroup(b) && IsGroup(c);
    assert DotJoined(t, a, b, c, d);
  }

  /** An ordinary host name that is cut: of "1.2.3.a" the quad "1.2.3." is read. */
  lemma {:induction false} HostNameIsCut()
    ensures ValidHost("1.2.3.a") && OpensWithQuad("1.2.3.a")
    ensures ServerName("1.2.3.a") == Some(ServerPart("1.2.3.", None))
  {
    ExampleQuad("1.2.3.", "");
    assert "1.2.3." + "a" == "1.2.3.a";
    QuadHostIsCut("1.2.3.", "a", None);
  }

  /** The last group of a quad may be empty, or above 255. */
  lemma {:induction false} LastGroupUnchecked()
    ensures Host("1.2.3.") == Some(6) && Host("1.2.3.999") == Some(9)
  {
    ExampleQuad("1.2.3.", "");
    ExampleQuad("1.2.3.999", "999");
    WholeQuad("1.2.3.");
    WholeQuad("1.2.3.999");
  }

  lemma WholeQuad(t: string)
    requires IsDottedQuad(t)
    ensures Host(t) == Some(|t|)
  {
    QuadExactly(t);
    QuadChars(t, DOTS);
    RunIs(t, DigitsAndDots, |t|);
    assert t[..|t|] == t;
  }

  /** A host that starts with a letter does not open with a quad. */
  lemma {:induction false} LetterOpensNoQuad(h: string)
    requires ValidHost(h) && !IsDigit(h[0]) && h[0] != '.'
    ensures !OpensWithQuad(h)
  {
    RunIs(h, DigitsAndDots, 0);
    assert h[..0] == "";
    RunIs("", Digits, 0);
  }

  // The host was read as a dotted quad.
  predicate ReadAsQuad(t: string) {
    IPv4(t).Some?
  }

  /**
   * Whatever server name is accepted, recomposing it gives a prefix of the input; a port has one to five digits and is
   * at most 65535; a dotted quad has three dots, and its first three groups are one to three digits of value at most
   * 255.
   */
  lemma AcceptedIsPrefix(t: string)
    requires ServerName(t).Some?
    ensures var part := ServerName(t).value;
      && Recompose(part) <= t
      && part.hostname != "" && |part.hostname| <= |t|
      && (part.port.Some? ==> ValidPort(part.port.value))
      && (ReadAsQuad(t) ==> IsDottedQuad(part.hostname))
  {
    var n := Host(t).value;
    HostBounded(t);
    HostNonEmpty(t);
    if At(t, n) == ':' { HostAndPort(t, n, PortLength(t[n + 1..])); }
    if ReadAsQuad(t) { ThreeDots(t[..n]); }
  }

  lemma HostAndPort(t: string, n: nat, m: nat)
    requires n < |t| && t[n] == ':' && m <= |t[n + 1..]|
    ensures t[..n] + ":" + t[n + 1..][..m] <= t
  {
    assert t[..n] + ":" + t[n + 1..][..m] == t[..n + 1 + m];
  }

  lemma HostNonEmpty(t: string)
    ensures Host(t).Some? ==> Host(t).value > 0
  {
    if IPv4(t).Some? {
      var n := IPv4(t).value;
      QuadShape(t[..n], DOTS);
    }
  }

  // ---------- User identifiers ----------

  predicate ValidLocal(local: string) {
    local != "" && forall k :: 0 <= k < |local| ==> IsHistoricalChar(local[k])
  }

  // How the routes write a user ID.
  function FullId(local: string, server: string): string {
    "@" + local + ":" + server
  }

  lemma LocalReadBack(local: string, server: string)
    requires ValidLocal(local)
    ensures Localpart(local + ":" + server) == Some((local, |local|))
    ensures At(local + ":" + server, |local|) == ':'
    ensures (local + ":" + server)[|local| + 1..] == server
  {
    var t := local + ":" + server;
    RunIs(t, LocalChars, |local|);
    assert t[..|local|] == local;
  }

  lemma FullIdParses(local: string, server: string)
    requires ValidLocal(local) && |local| + 1 + |server| <= 255
    ensures ParseCommonId(FullId(local, server))
         == match ServerName(server) case None => None case Some(part) => Some(CommonId('@', Some(local), Some(part)))
  {
    var t := local + ":" + server;
    assert FullId(local, server)[1..] == t;
    LocalReadBack(local, server);
  }

  lemma HistoricalFits(local: string, server: string)
    requires ValidLocal(local) && |local| + 1 + |server| <= 255
    ensures HistoricalName(local, server)
  {
    forall c | c in local ensures IsHistoricalChar(c) { var k :| 0 <= k < |local| && local[k] == c; }
  }

  /**
   * Parsing a composed user ID gives back exactly its local part and server if and only if the host does not open
   * with a dotted quad; the server read then matches the server name the ID was composed with, and no other.
   */
  lemma UserIdRoundTrip(local: string, part: ServerPart, defaultServer: string)
    requires ValidLocal(local) && ValidPart(part)
    requires |local| + 1 + |Recompose(part)| <= 255
    ensures ParseUserId(FullId(local, Recompose(part)), defaultServer) == Some(CommonId('@', Some(local), Some(part)))
       <==> !OpensWithQuad(part.hostname)
    ensures !OpensWithQuad(part.hostname) ==>
      var id := ParseUserId(FullId(local, Recompose(part)), defaultServer).value;
      forall name :: ServerNameEquals(id.server.value, name) <==> name == Recompose(part)
  {
    var server := Recompose(part);
    FullIdParses(local, server);
    ServerReadBack(part);
    HistoricalFits(local, server);
    assert At(FullId(local, server), 0) == '@';
  }

  /** A bare local part and the full ID on the default server name the same user. */
  lemma {:induction false} BareAgreesWithFull(local: string, part: ServerPart, defaultServer: string)
    requires ValidLocal(local) && local[0] != '@' && ValidPart(part) && !OpensWithQuad(part.hostname)
    requires |local| + 1 + |Recompose(part)| <= 255
    ensures var server := Recompose(part);
      var bare, full := ParseUserId(local, server), ParseUserId(FullId(local, server), defaultServer);
      && bare.Some? && full.Some?
      && bare.value.local == full.value.local == Some(local)
      && bare.value.server == full.value.server == Some(part)
  {
    UserIdRoundTrip(local, part, defaultServer);
    ServerReadBack(part);
    HistoricalFits(local, Recompose(part));
  }

  // A full ID as it is accepted: after the local part there may be one character that cannot be in one.
  predicate Splits(id: string, local: string, dropped: string, rest: string) {
    && id == "@" + local + dropped + ":" + rest
    && ValidLocal(local) && ServerName(rest).Some?
    && (dropped == "" || (|dropped| == 1 && dropped[0] != ':' && !IsLocalChar(dropped[0])))
  }

  // Text that ParseUserLocalpart takes whole.
  predicate LocalText(local: string) {
    local != "" && forall k :: 0 <= k < |local| ==> IsLocalChar(local[k])
  }

  lemma LocalOfSplit(local: string, dropped: string, rest: string)
    requires LocalText(local) && |dropped| <= 1 && (dropped != "" ==> dropped[0] != ':' && !IsLocalChar(dropped[0]))
    ensures var t := local + dropped + ":" + rest;
      Localpart(t) == Some((local, |local + dropped|)) && At(t, |local + dropped|) == ':'
      && t[|local + dropped| + 1..] == rest
  {
    var t := local + dropped + ":" + rest;
    RunIs(t, LocalChars, |local|);
    assert t[..|local|] == local;
  }

  lemma LocalThenServer(sigil: char, t: string, local: string, i: nat)
    requires Localpart(t) == Some((local, i))
    ensures LocalAndServer(sigil, t)
         == if At(t, i) == ':' && ServerName(t[i + 1..]).Some?
            then Some(CommonId(sigil, Some(local), ServerName(t[i + 1..])))
            else None
  {
  }

  lemma FullIdIs(id: string, t: string, defaultServer: string)
    requires id == "@" + t && t != ""
    ensures ParseUserId(id, defaultServer)
         == if |t| > 255 || LocalAndServer('@', t).None? then None
            else
              var parsed := LocalAndServer('@', t).value;
              if HistoricalName(parsed.local.value, Recompose(parsed.server.value)) then Some(parsed) else None
  {
    assert id[1..] == t && At(id, 0) == '@';
  }

  lemma SplitIsRead(id: string, local: string, dropped: string, rest: string, defaultServer: string)
    requires Splits(id, local, dropped, rest) && |id| <= 256
    ensures ParseUserId(id, defaultServer) == Some(CommonId('@', Some(local), ServerName(rest)))
  {
    var t, part := local + dropped + ":" + rest, ServerName(rest).value;
    assert id == "@" + t;
    LocalOfSplit(local, dropped, rest);
    LocalThenServer('@', t, local, |local + dropped|);
    AcceptedIsPrefix(rest);
    HistoricalFits(local, Recompose(part));
    FullIdIs(id, t, defaultServer);
  }

  // A local part, its end and the colon behind it.
  lemma LocalSplits(t: string, local: string, i: nat)
    requires Localpart(t) == Some((local, i)) && At(t, i) == ':'
    ensures |local| <= i < |t| && t == local + t[|local|..i] + ":" + t[i + 1..]
    ensures i == |local| || (i == |local| + 1 && t[|local|] != ':' && !IsLocalChar(t[|local|]))
    ensures local != ""
  {
  }

  lemma HistoricalIsLocal(local: string, server: string)
    requires HistoricalName(local, server) && local != ""
    ensures ValidLocal(local)
  {
    forall k | 0 <= k < |local| ensures IsHistoricalChar(local[k]) { assert local[k] in local; }
  }

  // The local part of an accepted full ID and the index of the colon behind it.
  lemma FullIdRead(id: string, t: string, defaultServer: string) returns (local: string, i: nat, server: string)
    requires id == "@" + t && t != "" && ParseUserId(id, defaultServer).Some?
    ensures |t| <= 255 && Localpart(t) == Some((local, i)) && At(t, i) == ':' && ServerName(t[i + 1..]).Some?
    ensures HistoricalName(local, server)
  {
    FullIdIs(id, t, defaultServer);
    local, i := Localpart(t).value.0, Localpart(t).value.1;
    LocalThenServer('@', t, local, i);
    server := Recompose(ServerName(t[i + 1..]).value);
  }

  lemma SplitText(t: string, local: string, dropped: string, rest: string)
    requires t == local + dropped + ":" + rest
    ensures "@" + t == "@" + local + dropped + ":" + rest
  {
  }

  // What the parser makes of an accepted full ID shows how it splits.
  lemma ReadIsSplit(id: string, t: string, defaultServer: string)
    returns (local: string, dropped: string, rest: string)
    requires id == "@" + t && t != "" && ParseUserId(id, defaultServer).Some?
    ensures Splits(id, local, dropped, rest) && |id| <= 256
  {
    var l, i, server := FullIdRead(id, t, defaultServer);
    LocalSplits(t, l, i);
    HistoricalIsLocal(l, server);
    local, dropped, rest := l, t[|l|..i], t[i + 1..];
    SplitText(t, local, dropped, rest);
  }

  /**
   * Which full IDs are accepted, and as what: 256 characters at most, a local part over the historical alphabet, a
   * colon, and a text that begins with a server name. One character that is not ASCII (or NUL) right before the colon
   * is dropped; without one, the ID composed of what was read is a prefix of the input.
   */
  lemma {:induction false} FullIdExactly(id: string, defaultServer: string)
    requires At(id, 0) == '@'
    ensures ParseUserId(id, defaultServer).Some? <==>
      |id| <= 256 && exists local, dropped, rest :: Splits(id, local, dropped, rest)
    ensures |id| <= 256 ==> forall local, dropped, rest :: Splits(id, local, dropped, rest) ==>
      && ParseUserId(id, defaultServer) == Some(CommonId('@', Some(local), ServerName(rest)))
      && (FullId(local, Recompose(ServerName(rest).value)) <= id <==> dropped == "")
  {
    if ParseUserId(id, defaultServer).Some? {
      assert id == "@" + id[1..];
      var local, dropped, rest := ReadIsSplit(id, id[1..], defaultServer);
    }
    if |id| <= 256 {
      forall local, dropped, rest | Splits(id, local, dropped, rest)
        ensures ParseUserId(id, defaultServer) == Some(CommonId('@', Some(local), ServerName(rest)))
        ensures FullId(local, Recompose(ServerName(rest).value)) <= id <==> dropped == ""
      {
        SplitIsRead(id, local, dropped, rest, defaultServer);
        SplitPrefix(id, local, dropped, rest);
      }
    }
  }

  lemma UncutPrefix(local: string, rest: string, server: string)
    requires server <= rest
    ensures FullId(local, server) <= "@" + local + "" + ":" + rest
  {
    assert rest == server + rest[|server|..];
    assert "@" + local + "" + ":" + rest == FullId(local, server) + rest[|server|..];
  }

  lemma SplitPrefix(id: string, local: string, dropped: string, rest: string)
    requires Splits(id, local, dropped, rest)
    ensures FullId(local, Recompose(ServerName(rest).value)) <= id <==> dropped == ""
  {
    var server := Recompose(ServerName(rest).value);
    AcceptedIsPrefix(rest);
    if dropped == "" {
      UncutPrefix(local, rest, server);
    } else {
      var colon := 1 + |local|;
      assert FullId(local, server)[colon] == ':';
      assert id[colon] == dropped[0];
    }
  }

  /** Two texts that name the same user: a byte above 127 is dropped before the colon. */
  lemma {:induction false} HighByteIsDropped(defaultServer: string)
    ensures ParseUserId("@a\U{E9}:h", defaultServer) == ParseUserId("@a:h", defaultServer)
    ensures ParseUserId("@a:h", defaultServer) == Some(CommonId('@', Some("a"), Some(ServerPart("h", None))))
  {
    var part := ServerPart("h", None);
    LetterOpensNoQuad("h");
    ServerReadBack(part);
    assert "@a\U{E9}:h" == "@" + "a" + "\U{E9}" + ":" + "h";
    assert "@a:h" == "@" + "a" + "" + ":" + "h";
    SplitIsRead("@a\U{E9}:h", "a", "\U{E9}", "h", defaultServer);
    SplitIsRead("@a:h", "a", "", "h", defaultServer);
  }

  lemma UserNameIsHistorical(local: string, server: string)
    requires UserName(local, server) && local != ""
    ensures ValidLocal(local)
  {
    forall k | 0 <= k < |local| ensures IsHistoricalChar(local[k]) { assert local[k] in local; }
  }

  /**
   * The length check lets a local part and server name share 255 characters, and does not count the sigil and the
   * colon. For a server name of 255 characters and more the limit wraps around, and nothing that fits in memory
   * fails it.
   */
  lemma LengthLimit(local: string, domain: string)
    requires local != "" && |local| + |domain| < 0x1_0000_0000_0000_0000
    ensures WithinLength(local, domain) <==> |domain| >= 255 || |local| + |domain| <= 255
  {
  }

  /**
   * A name accepted at registration can be addressed by its full ID if and only if it is not empty and one character
   * is left for the colon within 255: for the longest accepted names and for the empty one it cannot.
   */
  lemma {:induction false} RegisteredNameIsAddressable(name: string, part: ServerPart, defaultServer: string)
    requires ValidPart(part) && !OpensWithQuad(part.hostname)
    requires UserName(name, Recompose(part))
    ensures ParseUserId(FullId(name, Recompose(part)), defaultServer) == Some(CommonId('@', Some(name), Some(part)))
       <==> name != "" && |name| + 1 + |Recompose(part)| <= 255
  {
    var server := Recompose(part);
    var id := FullId(name, server);
    assert id[1..] == name + ":" + server && At(id, 0) == '@';
    if name == "" {
      assert (name + ":" + server)[0] == ':';
      RunIs(name + ":" + server, LocalChars, 0);
    } else {
      UserNameIsHistorical(name, server);
      if |name| + 1 + |server| <= 255 { UserIdRoundTrip(name, part, defaultServer); }
    }
  }

  /** For every server name of at most 254 characters, the longest names that can be registered cannot be addressed. */
  lemma {:induction false} LongestNameLost(part: ServerPart, defaultServer: string)
    requires ValidPart(part) && !OpensWithQuad(part.hostname) && |Recompose(part)| <= 254
    ensures var name := seq(255 - |Recompose(part)|, _ => 'a');
      && UserName(name, Recompose(part))
      && ParseUserId(FullId(name, Recompose(part)), defaultServer).None?
  {
    var server := Recompose(part);
    var name := seq(255 - |server|, _ => 'a');
    var id := FullId(name, server);
    assert id[1..] == name + ":" + server && At(id, 0) == '@';
    assert |id[1..]| == 256;
  }
}
