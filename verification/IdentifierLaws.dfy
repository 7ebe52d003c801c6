/**
 * The alphabets of identifiers by their bytes, and which room IDs, aliases and event IDs are accepted.
 */
module IdentifierLaws {
  import opened Characters
  import opened Options
  import opened Identifiers
  import opened IdentifierTheorems

  // ---------- Alphabets ----------

  predicate DigitByte(n: int) {
    48 <= n <= 57
  }

  predicate SmallByte(n: int) {
    97 <= n <= 122
  }

  predicate CapitalByte(n: int) {
    65 <= n <= 90
  }

  /**
   * User names are made of small letters, digits and "-", ".", "/", "=", "_"; historical ones of everything from "!" to
   * "~" but the colon; local parts of every ASCII byte but the colon and NUL; host names of letters, digits, "-" and
   * ".".
   */
  lemma {:induction false} Alphabets(c: char)
    ensures var n := c as int;
      && (IsUserChar(c) <==> SmallByte(n) || DigitByte(n) || n == 45 || n == 46 || n == 47 || n == 61 || n == 95)
      && (IsHistoricalChar(c) <==> 33 <= n <= 126 && n != 58)
      && (IsLocalChar(c) <==> 1 <= n <= 127 && n != 58)
      && (IsHostChar(c) <==> SmallByte(n) || CapitalByte(n) || DigitByte(n) || n == 45 || n == 46)
      && (IsHexDigit(c) <==> DigitByte(n) || 65 <= n <= 70 || 97 <= n <= 102)
      && (IsDigit(c) <==> DigitByte(n))
  {
  }

  predicate UserByte(n: int) {
    SmallByte(n) || DigitByte(n) || n == 45 || n == 46 || n == 47 || n == 61 || n == 95
  }

  predicate HistoricalByte(n: int) {
    33 <= n <= 126 && n != 58
  }

  // The name and the server name share 255 characters; a server name of that length or more leaves no limit.
  predicate Fits(local: string, domain: string) {
    local == "" || |domain| >= 255 || |local| + |domain| <= 255
  }

  /** The names that registration and login accept, for any server name that fits in memory. */
  lemma {:induction false} NamesExactly(local: string, domain: string)
    requires |local| + |domain| < 0x1_0000_0000_0000_0000
    ensures UserName(local, domain) <==> (forall c :: c in local ==> UserByte(c as int)) && Fits(local, domain)
    ensures HistoricalName(local, domain)
       <==> (forall c :: c in local ==> HistoricalByte(c as int)) && Fits(local, domain)
  {
    if local != "" { LengthLimit(local, domain); }
    forall c ensures IsUserChar(c) <==> UserByte(c as int) { Alphabets(c); }
    forall c ensures IsHistoricalChar(c) <==> HistoricalByte(c as int) { Alphabets(c); }
  }

  /** A text without a sigil is a local part on the default server, exactly if it is such a name and that one parses. */
  lemma {:induction false} BareIdExactly(id: string, defaultServer: string)
    requires At(id, 0) != '@' && |id| + |defaultServer| < 0x1_0000_0000_0000_0000
    ensures var server := ServerName(defaultServer);
      ParseUserId(id, defaultServer)
      == if server.Some? && (forall c :: c in id ==> HistoricalByte(c as int)) && Fits(id, Recompose(server.value))
         then Some(CommonId(NUL, Some(id), server))
         else None
  {
    if ServerName(defaultServer).Some? {
      AcceptedIsPrefix(defaultServer);
      NamesExactly(id, Recompose(ServerName(defaultServer).value));
    }
  }

  // ---------- Room IDs, aliases and user IDs ----------

  predicate NamesServer(sigil: char) {
    sigil == '!' || sigil == '#' || sigil == '@'
  }

  // An identifier taken apart: after the local part there may be one character that cannot be in one.
  predicate Parts(str: string, sigil: char, local: string, dropped: string, rest: string) {
    && str == [sigil] + local + dropped + ":" + rest
    && LocalText(local) && ServerName(rest).Some?
    && (dropped == "" || (|dropped| == 1 && dropped[0] != ':' && !IsLocalChar(dropped[0])))
  }

  // Room IDs may have any length.
  predicate LengthOk(sigil: char, str: string) {
    sigil == '!' || |str| <= 256
  }

  lemma CommonIdIs(str: string, sigil: char, t: string)
    requires str == [sigil] + t && t != "" && NamesServer(sigil)
    ensures ParseCommonId(str) == if LengthOk(sigil, str) then LocalAndServer(sigil, t) else None
  {
    assert str[1..] == t && str[0] == sigil;
  }

  lemma PartsAreRead(str: string, sigil: char, local: string, dropped: string, rest: string)
    requires Parts(str, sigil, local, dropped, rest) && NamesServer(sigil) && LengthOk(sigil, str)
    ensures ParseCommonId(str) == Some(CommonId(sigil, Some(local), ServerName(rest)))
  {
    var t := local + dropped + ":" + rest;
    assert str == [sigil] + t;
    LocalOfSplit(local, dropped, rest);
    LocalThenServer(sigil, t, local, |local + dropped|);
    CommonIdIs(str, sigil, t);
  }

  lemma RunIsLocal(t: string, local: string, i: nat)
    requires Localpart(t) == Some((local, i))
    ensures LocalText(local)
  {
  }

  // The local part of an accepted identifier and the index of the colon behind it.
  lemma CommonIdRead(str: string, sigil: char, t: string) returns (local: string, i: nat)
    requires str == [sigil] + t && t != "" && NamesServer(sigil) && ParseCommonId(str).Some?
    ensures LengthOk(sigil, str)
    ensures Localpart(t) == Some((local, i)) && At(t, i) == ':' && ServerName(t[i + 1..]).Some?
  {
    CommonIdIs(str, sigil, t);
    local, i := Localpart(t).value.0, Localpart(t).value.1;
    LocalThenServer(sigil, t, local, i);
  }

  lemma PartsText(t: string, sigil: char, local: string, dropped: string, rest: string)
    requires t == local + dropped + ":" + rest
    ensures [sigil] + t == [sigil] + local + dropped + ":" + rest
  {
  }

  lemma ReadHasParts(str: string, sigil: char, t: string) returns (local: string, dropped: string, rest: string)
    requires str == [sigil] + t && t != "" && NamesServer(sigil) && ParseCommonId(str).Some?
    ensures Parts(str, sigil, local, dropped, rest) && LengthOk(sigil, str)
  {
    var l, i := CommonIdRead(str, sigil, t);
    RunIsLocal(t, l, i);
    LocalSplits(t, l, i);
    local, dropped, rest := l, t[|l|..i], t[i + 1..];
    PartsText(t, sigil, local, dropped, rest);
  }

  /**
   * Which room IDs, aliases and user IDs are accepted, and as what: a local part, a colon and a text that begins with a
   * server name, of at most 256 characters but for room IDs.
   */
  lemma {:induction false} CommonIdExactly(str: string)
    requires |str| >= 2 && NamesServer(str[0])
    ensures ParseCommonId(str).Some? <==>
      LengthOk(str[0], str) && exists local, dropped, rest :: Parts(str, str[0], local, dropped, rest)
    ensures LengthOk(str[0], str) ==> forall local, dropped, rest :: Parts(str, str[0], local, dropped, rest) ==>
      ParseCommonId(str) == Some(CommonId(str[0], Some(local), ServerName(rest)))
  {
    if ParseCommonId(str).Some? {
      assert str == [str[0]] + str[1..];
      var local, dropped, rest := ReadHasParts(str, str[0], str[1..]);
    }
    if LengthOk(str[0], str) {
      forall local, dropped, rest | Parts(str, str[0], local, dropped, rest)
        ensures ParseCommonId(str) == Some(CommonId(str[0], Some(local), ServerName(rest)))
      {
        PartsAreRead(str, str[0], local, dropped, rest);
      }
    }
  }

  /** A sigil is checked on what is read; a text of one character or none is nothing. */
  lemma {:induction false} SigilIsFirst(str: string, sigil: char)
    ensures ValidCommonId(str, sigil) <==> |str| >= 2 && str[0] == sigil && ParseCommonId(str).Some?
  {
  }

  // ---------- Other sigils ----------

  // The text of an event ID: a local part, and behind it nothing, or a character that ends it with no colon next.
  predicate EventParts(str: string, local: string, more: string) {
    && str == "$" + local + more && LocalText(local)
    && (more != "" ==> more[0] != ':' && !IsLocalChar(more[0]) && (|more| > 1 ==> more[1] != ':'))
  }

  lemma EventIsRead(str: string, local: string, more: string)
    requires EventParts(str, local, more)
    ensures ParseCommonId(str) == Some(CommonId('$', Some(local), None))
  {
    var t := local + more;
    assert str[1..] == t;
    RunIs(t, LocalChars, |local|);
    assert t[..|local|] == local;
  }

  lemma EventHasParts(str: string, t: string) returns (local: string, more: string)
    requires str == "$" + t && t != "" && ParseCommonId(str).Some?
    ensures EventParts(str, local, more)
  {
    assert str[1..] == t;
    var n := Run(t, LocalChars);
    local, more := t[..n], t[n..];
    assert t == local + more;
    assert n < |t| ==> more[0] == t[n];
    assert n + 1 < |t| ==> more[1] == t[n + 1];
  }

  /** An event ID is a local part without a colon behind it; with any other sigil nothing is checked. */
  lemma {:induction false} EventIdExactly(str: string)
    requires |str| >= 2 && !NamesServer(str[0])
    ensures str[0] == '$' ==>
      (ParseCommonId(str).Some? <==> exists local, more :: EventParts(str, local, more))
    ensures str[0] != '$' ==> ParseCommonId(str) == Some(CommonId(str[0], None, None))
  {
    if str[0] == '$' {
      assert str == "$" + str[1..];
      if ParseCommonId(str).Some? {
        var local, more := EventHasParts(str, str[1..]);
      }
      if local, more :| EventParts(str, local, more) { EventIsRead(str, local, more); }
    }
  }
}
