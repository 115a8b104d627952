/** Sign-out and token validation: the revocation list of api/handlers/session.go and the check that
    ValidateJWT (api/handlers/auth.go) makes against it. Times are integer nanoseconds. */
module Revocation {
  import opened Text

  const MINUTE: int := 60_000_000_000

  type Table = map<string, int>

  // ----- the list ---------------------------------------------------------------------

  datatype List = List(revoked: Table, last: int)

  function Unexpired(t: Table, now: int): Table {
    map jti | jti in t && !(now > t[jti]) :: t[jti]
  }

  function Swept(l: List, now: int): List {
    if now - l.last < MINUTE then l else List(Unexpired(l.revoked, now), now)
  }

  function Revoked(l: List, jti: string, expiresAt: int, now: int): List {
    if jti == "" then l else Swept(l.(revoked := l.revoked[jti := expiresAt]), now)
  }

  class RevocationList {
    var revoked: Table
    var last: int

    constructor (now: int)
      ensures View() == List(map[], now)
    {
      revoked, last := map[], now;
    }

    ghost function View(): List
      reads this
    {
      List(revoked, last)
    }

    method Revoke(jti: string, expiresAt: int, now: int)
      modifies this
      ensures View() == Revoked(old(View()), jti, expiresAt, now)
    {
      if jti == "" {
        return;
      }
      revoked := revoked[jti := expiresAt];
      SweepLocked(now);
    }

    method SweepLocked(now: int)
      modifies this
      ensures View() == Swept(old(View()), now)
    {
      if now - last < MINUTE {
        return;
      }
      ghost var before := revoked;
      var pending := revoked.Keys;
      while pending != {}
        invariant pending <= before.Keys && revoked.Keys <= before.Keys
        invariant forall k :: k in revoked ==> revoked[k] == before[k]
        invariant forall k :: k in before ==> (k in revoked <==> k in pending || !(now > before[k]))
        decreases |pending|
      {
        var jti :| jti in pending;
        pending := pending - {jti};
        if now > revoked[jti] {
          revoked := revoked - {jti};
        }
      }
      last := now;
    }

    /** The read that IsRevoked makes under the read lock. */
    method Lookup(jti: string) returns (expiry: Option<int>)
      ensures expiry == if jti in revoked then Some(revoked[jti]) else None
    {
      expiry := if jti in revoked then Some(revoked[jti]) else None;
    }

    /** The delete that IsRevoked makes later, under the write lock. */
    method Forget(jti: string)
      modifies this`revoked
      ensures revoked == old(revoked) - {jti}
    {
      revoked := revoked - {jti};
    }

    /** IsRevoked when nothing runs between its read and its delete. */
    method IsRevoked(jti: string, now: int) returns (answer: bool)
      modifies this`revoked
      ensures answer <==> jti != "" && jti in old(revoked) && now <= old(revoked)[jti]
      ensures revoked == if jti != "" && jti in old(revoked) && !answer then old(revoked) - {jti} else old(revoked)
    {
      if jti == "" {
        return false;
      }
      var expiry := Lookup(jti);
      if expiry == None {
        return false;
      }
      if now > expiry.value {
        Forget(jti);
        return false;
      }
      return true;
    }
  }

  // ----- concurrent validations and sign-outs --------------------------------------------

  /** How far one validation has come. `parsedAt` is the clock reading of the token's own expiry check;
      `at` is the moment IsRevoked settled its answer: its clock reading when it found an entry, its read
      of the table when it found none; `known` says whether the session had been signed out by that read. */
  datatype Phase =
    | Parsed(jti: string, parsedAt: int)
    | Holding(jti: string, parsedAt: int, expiry: int)
    | Deleting(jti: string, parsedAt: int, at: int)
    | Refused(jti: string)
    | Answered(jti: string, parsedAt: int, known: bool, at: int, isRevoked: bool)

  /** `ended` is the ideal: every session ever signed out. The code keeps no such set. */
  datatype System = System(list: List, ended: set<string>, clock: int, calls: map<nat, Phase>)

  datatype Event =
    | SignOut(jti: string, now: int)
    | Parse(call: nat, jti: string, now: int)
    | Read(call: nat, now: int)
    | Check(call: nat, now: int)
    | Delete(call: nat, now: int)

  predicate Enabled(s: System, e: Event) {
    s.clock <= e.now &&
    match e
    case SignOut(jti, _) => jti != ""
    case Parse(c, jti, _) => c !in s.calls && jti != ""
    case Read(c, _) => c in s.calls && s.calls[c].Parsed?
    case Check(c, _) => c in s.calls && s.calls[c].Holding?
    case Delete(c, _) => c in s.calls && s.calls[c].Deleting?
  }

  /** One atomic step. `exp` is the fixed expiry that each token carries. */
  function Next(s: System, e: Event, exp: string -> int): System
    requires Enabled(s, e)
  {
    var s := s.(clock := e.now);
    match e
    case SignOut(jti, now) =>
      s.(list := Revoked(s.list, jti, exp(jti), now), ended := s.ended + {jti})
    case Parse(c, jti, now) =>
      s.(calls := s.calls[c := if now < exp(jti) then Parsed(jti, now) else Refused(jti)])
    case Read(c, now) =>
      var p := s.calls[c];
      s.(calls := s.calls[c :=
        if p.jti in s.list.revoked
        then Holding(p.jti, p.parsedAt, s.list.revoked[p.jti])
        else Answered(p.jti, p.parsedAt, p.jti in s.ended, now, false)])
    case Check(c, now) =>
      var p := s.calls[c];
      s.(calls := s.calls[c :=
        if now > p.expiry
        then Deleting(p.jti, p.parsedAt, now)
        else Answered(p.jti, p.parsedAt, true, now, true)])
    case Delete(c, now) =>
      var p := s.calls[c];
      s.(list := s.list.(revoked := s.list.revoked - {p.jti}),
         calls := s.calls[c := Answered(p.jti, p.parsedAt, true, p.at, false)])
  }

  ghost predicate Run(s: System, es: seq<Event>, exp: string -> int, t: System)
    decreases |es|
  {
    if es == [] then s == t else Enabled(s, es[0]) && Run(Next(s, es[0], exp), es[1..], exp, t)
  }

  predicate Initial(s: System) {
    s.list.revoked == map[] && s.ended == {} && s.calls == map[]
  }

  /** What is true of one validation at any time. The last line is the specification of IsRevoked. */
  predicate PhaseOk(p: Phase, clock: int, exp: string -> int) {
    match p
    case Parsed(jti, t) => t <= clock && t < exp(jti)
    case Holding(jti, t, expiry) => t <= clock && t < exp(jti) && expiry == exp(jti)
    case Deleting(jti, t, at) => t <= at <= clock && t < exp(jti) && at > exp(jti)
    case Refused(jti) => clock >= exp(jti)
    case Answered(jti, t, known, at, isRevoked) =>
      t <= at <= clock && t < exp(jti) && (isRevoked <==> known && at <= exp(jti))
  }

  /** The list remembers exactly the ended sessions, except that it may forget expired ones. */
  ghost predicate Inv(s: System, exp: string -> int) {
    && (forall jti :: jti in s.list.revoked ==> jti in s.ended && s.list.revoked[jti] == exp(jti))
    && (forall jti :: jti in s.ended ==> jti in s.list.revoked || s.clock > exp(jti))
    && (forall c :: c in s.calls ==> PhaseOk(s.calls[c], s.clock, exp))
  }

  lemma NextKeepsInv(s: System, e: Event, exp: string -> int)
    requires Inv(s, exp) && Enabled(s, e)
    ensures Inv(Next(s, e, exp), exp)
  {
    var t := Next(s, e, exp);
    forall c | c in t.calls
      ensures PhaseOk(t.calls[c], t.clock, exp)
    {
      if c in s.calls {
        assert PhaseOk(s.calls[c], s.clock, exp);
      }
    }
  }

  lemma {:induction false} RunKeepsInv(s: System, es: seq<Event>, exp: string -> int, t: System)
    requires Inv(s, exp) && Run(s, es, exp, t)
    ensures Inv(t, exp)
    decreases |es|
  {
    if es != [] {
      NextKeepsInv(s, es[0], exp);
      RunKeepsInv(Next(s, es[0], exp), es[1..], exp, t);
    }
  }

  /** Whatever the interleaving, IsRevoked answers true exactly for sessions signed out before it read the
      table and not past their expiry when it settled its answer. */
  lemma IsRevokedIsExact(s: System, es: seq<Event>, exp: string -> int, t: System, c: nat)
    requires Initial(s) && Run(s, es, exp, t)
    requires c in t.calls && t.calls[c].Answered?
    ensures var p := t.calls[c]; p.isRevoked <==> p.known && p.at <= exp(p.jti)
  {
    RunKeepsInv(s, es, exp, t);
  }

  predicate Accepted(p: Phase) {
    p.Answered? && !p.isRevoked
  }

  /** A session signed out before the table was read is accepted if and only if its expiry lies strictly
      between the token's own expiry check and the moment the revocation answer was settled. */
  lemma SignedOutIsAcceptedExactlyAcrossExpiry(s: System, es: seq<Event>, exp: string -> int, t: System, c: nat)
    requires Initial(s) && Run(s, es, exp, t)
    requires c in t.calls && t.calls[c].Answered? && t.calls[c].known
    ensures var p := t.calls[c]; Accepted(p) <==> p.parsedAt < exp(p.jti) < p.at
  {
    RunKeepsInv(s, es, exp, t);
  }

  /** So with one clock reading for both checks a signed-out session is never accepted again, although the
      list forgets it. */
  lemma OneReadingNeverAccepts(s: System, es: seq<Event>, exp: string -> int, t: System, c: nat)
    requires Initial(s) && Run(s, es, exp, t)
    requires c in t.calls && t.calls[c].Answered? && t.calls[c].known && t.calls[c].parsedAt == t.calls[c].at
    ensures !Accepted(t.calls[c])
  {
    SignedOutIsAcceptedExactlyAcrossExpiry(s, es, exp, t, c);
  }

  /** The code reads the clock twice, and the gap is reachable: a session that expires at 10 is signed out
      at 5 and accepted by a validation that parses its token at 9 and asks the list at 11. */
  lemma TwoReadingsCanAccept() returns (s: System, es: seq<Event>, exp: string -> int, t: System)
    ensures Initial(s) && Run(s, es, exp, t) && "a" in t.ended
    ensures 0 in t.calls && t.calls[0].Answered? && t.calls[0].known && Accepted(t.calls[0])
  {
    exp := (jti: string) => 10;
    s := System(List(map[], 0), {}, 0, map[]);
    es := [SignOut("a", 5), Parse(0, "a", 9), Read(0, 9), Check(0, 11), Delete(0, 11)];
    var s1 := Next(s, es[0], exp);
    var s2 := Next(s1, es[1], exp);
    var s3 := Next(s2, es[2], exp);
    var s4 := Next(s3, es[3], exp);
    t := Next(s4, es[4], exp);
    assert es[1..][0] == es[1] && es[1..][1..] == es[2..];
    assert es[2..][0] == es[2] && es[2..][1..] == es[3..];
    assert es[3..][0] == es[3] && es[3..][1..] == es[4..];
    assert es[4..][0] == es[4] && es[4..][1..] == [];
    assert Run(t, [], exp, t);
    assert Run(s4, es[4..], exp, t);
    assert Run(s3, es[3..], exp, t);
    assert Run(s2, es[2..], exp, t);
    assert Run(s1, es[1..], exp, t);
  }

  // ----- the list, exactly ------------------------------------------------------------------

  /** A sign-out records the expiry, and once a minute drops exactly the entries that are past theirs. */
  lemma RevokedExactly(l: List, jti: string, expiresAt: int, now: int)
    ensures var t := Revoked(l, jti, expiresAt, now);
      if jti == "" then t == l
      else
        var due, all := now - l.last >= 60_000_000_000, l.revoked[jti := expiresAt];
        t.last == (if due then now else l.last) &&
        (forall k :: k in t.revoked <==> k in all && (due ==> now <= all[k])) &&
        (forall k :: k in t.revoked ==> t.revoked[k] == all[k])
  {
  }

  /** Sign-outs and new validations are possible exactly for tokens with an id, once the clock has come so far; a
      validation always has a next step until it is answered, and the last one forgets the entry. */
  lemma NeverStuck(s: System, c: nat, jti: string, now: int, exp: string -> int)
    requires s.clock <= now
    ensures Enabled(s, SignOut(jti, now)) <==> jti != ""
    ensures Enabled(s, Parse(c, jti, now)) <==> jti != "" && c !in s.calls
    ensures c in s.calls && !s.calls[c].Answered? && !s.calls[c].Refused? ==>
      Enabled(s, Read(c, now)) || Enabled(s, Check(c, now)) || Enabled(s, Delete(c, now))
    ensures Enabled(s, Delete(c, now)) ==> s.calls[c].jti !in Next(s, Delete(c, now), exp).list.revoked
  {
  }
}
