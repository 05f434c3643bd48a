/** The bounded revocation list of `JwtUtil`.

    `std::set<RevokedEntry>` is ordered by token alone; it is a sequence of entries that
    strictly increase in that order. Every public call is atomic and takes the clock reading
    that the code makes inside it.
  */
module JwtBlacklist {
  import opened JwtToken
  import opened Text

  datatype Entry = Entry(token: string, expireAt: int)

  ghost predicate Ordered(l: seq<Entry>) {
    forall i, j :: 0 <= i < j < |l| ==> Less(l[i].token, l[j].token)
  }

  predicate Listed(l: seq<Entry>, token: string) {
    exists e :: e in l && e.token == token
  }

  /** `set::insert`: an entry with the same token stays as it is. */
  function Insert(l: seq<Entry>, e: Entry): seq<Entry> {
    if l == [] then [e]
    else if Less(l[0].token, e.token) then [l[0]] + Insert(l[1..], e)
    else if l[0].token == e.token then l
    else [e] + l
  }

  function Unexpired(l: seq<Entry>, now: int): seq<Entry> {
    if l == [] then []
    else if l[0].expireAt <= now then Unexpired(l[1..], now)
    else [l[0]] + Unexpired(l[1..], now)
  }

  /** The entry that is evicted first: the soonest to expire, and the least token among those. */
  function Oldest(l: seq<Entry>): (k: nat)
    requires l != []
    ensures k < |l|
    ensures forall i :: 0 <= i < |l| ==> l[k].expireAt <= l[i].expireAt
    ensures forall i :: 0 <= i < k ==> l[k].expireAt < l[i].expireAt
  {
    var n := |l| - 1;
    if n == 0 then 0
    else
      var k := Oldest(l[..n]);
      if l[n].expireAt < l[k].expireAt then n else k
  }

  function Without(l: seq<Entry>, k: nat): (r: seq<Entry>)
    requires k < |l|
    ensures |r| == |l| - 1
  {
    l[..k] + l[k + 1..]
  }

  function EvictTo(l: seq<Entry>, limit: int): seq<Entry>
    decreases |l|
  {
    if limit > 0 && |l| >= limit then EvictTo(Without(l, Oldest(l)), limit) else l
  }

  /** What `revoke` leaves behind for a token that reads as expiring at `exp`. */
  function AfterRevoke(l: seq<Entry>, limit: int, token: string, exp: int, now: int): seq<Entry> {
    if exp == 0 then l else Insert(EvictTo(Unexpired(l, now), limit), Entry(token, exp))
  }

  function InsertAll(l: seq<Entry>, entries: seq<Entry>): seq<Entry>
    decreases |entries|
  {
    if entries == [] then l else InsertAll(Insert(l, entries[0]), entries[1..])
  }

  lemma {:induction false} InsertMeans(l: seq<Entry>, e: Entry)
    requires Ordered(l)
    ensures Ordered(Insert(l, e))
    ensures |Insert(l, e)| == |l| + if Listed(l, e.token) then 0 else 1
    ensures forall x :: x in Insert(l, e) <==> x in l || (x == e && !Listed(l, e.token))
  {
    if l == [] {
    } else if Less(l[0].token, e.token) {
      InsertMeans(l[1..], e);
      LessTotal(l[0].token, e.token);
      var r := Insert(l[1..], e);
      forall j | 0 <= j < |r| ensures Less(l[0].token, r[j].token) {
        assert r[j] in r;
      }
      assert l == [l[0]] + l[1..];
      assert Listed(l, e.token) <==> Listed(l[1..], e.token);
    } else {
      LessTotal(l[0].token, e.token);
      if l[0].token != e.token {
        forall j | 0 <= j < |l| ensures Less(e.token, l[j].token) && e.token != l[j].token {
          if j > 0 { LessTransitive(e.token, l[0].token, l[j].token); }
          LessTotal(e.token, l[j].token);
        }
      }
    }
  }

  /** Inserting makes the token listed, and lists no other token anew. */
  lemma InsertLists(l: seq<Entry>, e: Entry)
    requires Ordered(l)
    ensures forall t :: Listed(Insert(l, e), t) <==> Listed(l, t) || t == e.token
  {
    InsertMeans(l, e);
    forall t ensures Listed(Insert(l, e), t) <==> Listed(l, t) || t == e.token {
      if t == e.token && !Listed(l, t) { assert e in Insert(l, e); }
    }
  }

  lemma {:induction false} UnexpiredMeans(l: seq<Entry>, now: int)
    requires Ordered(l)
    ensures Ordered(Unexpired(l, now))
    ensures forall x :: x in Unexpired(l, now) <==> x in l && x.expireAt > now
  {
    if l != [] {
      UnexpiredMeans(l[1..], now);
      assert l == [l[0]] + l[1..];
      var r := Unexpired(l[1..], now);
      forall j | 0 <= j < |r| ensures Less(l[0].token, r[j].token) {
        assert r[j] in r;
      }
    }
  }

  /** One turn of the erase loop, which stands at the i-th entry. */
  lemma PurgeStep(l: seq<Entry>, i: nat, now: int)
    requires i < |l|
    ensures
      var all := l[..i] + Unexpired(l[i..], now);
      if l[i].expireAt <= now then Without(l, i)[..i] + Unexpired(Without(l, i)[i..], now) == all
      else l[..i + 1] + Unexpired(l[i + 1..], now) == all
  {
    var done, rest := l[..i], l[i..];
    if l[i].expireAt <= now {
      assert Without(l, i)[..i] == done && Without(l, i)[i..] == rest[1..];
    } else {
      assert l[..i + 1] == done + [rest[0]] && l[i + 1..] == rest[1..];
    }
  }

  lemma WithoutMeans(l: seq<Entry>, k: nat)
    requires Ordered(l) && k < |l|
    ensures Ordered(Without(l, k))
    ensures multiset(l) == multiset(Without(l, k)) + multiset{l[k]}
  {
    assert l == l[..k] + [l[k]] + l[k + 1..];
  }

  /** The entries that `EvictTo` removes, in the order in which it removes them. */
  function Evictions(l: seq<Entry>, limit: int): seq<Entry>
    decreases |l|
  {
    if limit > 0 && |l| >= limit then [l[Oldest(l)]] + Evictions(Without(l, Oldest(l)), limit) else []
  }

  /** Eviction removes the least number of entries that leaves room for one more, and no entry
      that stays expires sooner than one that goes. */
  lemma {:induction false} EvictionMeans(l: seq<Entry>, limit: int)
    requires Ordered(l)
    ensures Ordered(EvictTo(l, limit))
    ensures multiset(l) == multiset(EvictTo(l, limit)) + multiset(Evictions(l, limit))
    ensures |Evictions(l, limit)| == if limit > 0 && |l| >= limit then |l| - limit + 1 else 0
    ensures forall g, k :: g in Evictions(l, limit) && k in EvictTo(l, limit) ==> g.expireAt <= k.expireAt
    decreases |l|
  {
    if limit > 0 && |l| >= limit {
      var o := Oldest(l);
      var l' := Without(l, o);
      WithoutMeans(l, o);
      EvictionMeans(l', limit);
      KeptExpireLater(l, l', EvictTo(l', limit), Evictions(l', limit));
    }
  }

  lemma KeptExpireLater(l: seq<Entry>, l': seq<Entry>, kept: seq<Entry>, gone: seq<Entry>)
    requires l != [] && multiset(l) == multiset(l') + multiset{l[Oldest(l)]}
    requires multiset(l') == multiset(kept) + multiset(gone)
    ensures forall k :: k in kept ==> l[Oldest(l)].expireAt <= k.expireAt
  {
    forall k | k in kept ensures l[Oldest(l)].expireAt <= k.expireAt {
      assert k in multiset(kept);
      assert k in multiset(l);
    }
  }

  lemma EvictionMembers(l: seq<Entry>, limit: int)
    requires Ordered(l)
    ensures forall x :: x in l <==> x in EvictTo(l, limit) || x in Evictions(l, limit)
    ensures forall x, y :: x in Evictions(l, limit) && y in EvictTo(l, limit) ==> x.token != y.token
    ensures |l| == |EvictTo(l, limit)| + |Evictions(l, limit)|
  {
    EvictionMeans(l, limit);
    var kept, gone := EvictTo(l, limit), Evictions(l, limit);
    forall x ensures x in l <==> x in kept || x in gone {
      assert x in l <==> x in multiset(l);
      assert x in kept <==> x in multiset(kept);
      assert x in gone <==> x in multiset(gone);
    }
    assert |multiset(l)| == |l| && |multiset(kept)| == |kept| && |multiset(gone)| == |gone|;
    forall x, y | x in gone && y in kept ensures x.token != y.token {
      OneEntryPerToken(l, kept, gone, x, y);
    }
  }

  lemma TokensDiffer(l: seq<Entry>, i: nat, j: nat)
    requires Ordered(l) && i < |l| && j < |l| && i != j
    ensures l[i].token != l[j].token
  {
    LessTotal(l[i].token, l[j].token);
    LessTotal(l[j].token, l[i].token);
  }

  lemma OccursOnce(l: seq<Entry>, k: nat)
    requires Ordered(l) && k < |l|
    ensures multiset(l)[l[k]] == 1
  {
    WithoutMeans(l, k);
    var r := Without(l, k);
    forall j | 0 <= j < |r| ensures r[j] != l[k] {
      TokensDiffer(l, if j < k then j else j + 1, k);
    }
  }

  lemma OneEntryPerToken(l: seq<Entry>, kept: seq<Entry>, gone: seq<Entry>, x: Entry, y: Entry)
    requires Ordered(l) && multiset(l) == multiset(kept) + multiset(gone)
    requires x in gone && y in kept
    ensures x.token != y.token
  {
    assert x in multiset(gone) && y in multiset(kept);
    assert x in multiset(l) && y in multiset(l);
    var i :| 0 <= i < |l| && l[i] == x;
    var j :| 0 <= j < |l| && l[j] == y;
    OccursOnce(l, i);
    assert multiset(l)[x] == multiset(kept)[x] + multiset(gone)[x];
    TokensDiffer(l, i, j);
  }

  /** In an ordered list, the first entry not below a token tells whether the token is listed. */
  lemma FoundByOrder(l: seq<Entry>, token: string, i: nat)
    requires Ordered(l) && i <= |l|
    requires forall j :: 0 <= j < i ==> Less(l[j].token, token)
    requires i < |l| ==> !Less(l[i].token, token)
    ensures Listed(l, token) <==> i < |l| && l[i].token == token
  {
    if Listed(l, token) {
      var e :| e in l && e.token == token;
      var k :| 0 <= k < |l| && l[k] == e;
      LessTotal(token, token);
      assert k >= i;
    }
  }

  /** A token whose expiry cannot be read is not listed, and nothing is purged or evicted for it. */
  lemma UnreadableIsIgnored(s: Store, token: string, now: int)
    requires ExpOf(token) == 0
    ensures
      var s' := Step(s, Revoke(token, now));
      s'.list == s.list && s'.persisted == s.persisted
  {}

  /** What one call of `revoke` does to a bounded list. */
  lemma RevokeBoundsTheList(l: seq<Entry>, limit: int, token: string, exp: int, now: int)
    requires Ordered(l) && exp != 0 && limit > 0
    ensures
      var live := Unexpired(l, now);
      var kept, gone := EvictTo(live, limit), Evictions(live, limit);
      var r := AfterRevoke(l, limit, token, exp, now);
      && Ordered(r) && |r| <= limit && Listed(r, token)
      && multiset(live) == multiset(kept) + multiset(gone)
      && |gone| == (if |live| < limit then 0 else |live| - (limit - 1))
      && (forall g, k :: g in gone && k in kept ==> g.expireAt <= k.expireAt)
      && (forall x :: x in r <==> x in kept || (x == Entry(token, exp) && !Listed(kept, token)))
  {
    var live := Unexpired(l, now);
    UnexpiredMeans(l, now);
    EvictionMeans(live, limit);
    EvictionMembers(live, limit);
    InsertMeans(EvictTo(live, limit), Entry(token, exp));
    InsertLists(EvictTo(live, limit), Entry(token, exp));
  }

  /** The list, the entries handed to the persistence callback, and beside them the ideal: the
      set of all tokens ever revoked or loaded, from which nothing is purged. */
  datatype Store = Store(list: seq<Entry>, limit: int, clock: int, persisted: seq<Entry>, revoked: set<string>)

  datatype Event =
    | Revoke(token: string, now: int)
    | Cleanup(now: int)
    | Load(entries: seq<Entry>)
    | SetLimit(limit: int)

  function Tokens(l: seq<Entry>): set<string> { set e | e in l :: e.token }

  function Step(s: Store, e: Event): Store {
    match e
    case Revoke(token, now) =>
      var exp := ExpOf(token);
      s.(list := AfterRevoke(s.list, s.limit, token, exp, now), clock := now, revoked := s.revoked + {token},
         persisted := if exp == 0 then s.persisted else s.persisted + [Entry(token, exp)])
    case Cleanup(now) => s.(list := Unexpired(s.list, now), clock := now)
    case Load(entries) => s.(list := InsertAll(s.list, entries), revoked := s.revoked + Tokens(entries))
    case SetLimit(limit) => s.(limit := limit)
  }

  function Run(s: Store, es: seq<Event>): Store
    decreases |es|
  {
    if es == [] then s else Run(Step(s, es[0]), es[1..])
  }

  predicate Truthful(entries: seq<Entry>) {
    forall e :: e in entries ==> e.expireAt == ExpOf(e.token)
  }

  /** The guard of the eviction loop is false. */
  predicate HasRoom(s: Store, now: int) {
    s.limit <= 0 || |Unexpired(s.list, now)| < s.limit
  }

  /** The clock does not run backwards and loaded entries carry the expiry of their token. */
  predicate Sane(s: Store, e: Event) {
    match e
    case Revoke(_, now) => s.clock <= now
    case Cleanup(now) => s.clock <= now
    case Load(entries) => Truthful(entries)
    case SetLimit(_) => true
  }

  predicate SaneRun(s: Store, es: seq<Event>)
    decreases |es|
  {
    es == [] || (Sane(s, es[0]) && SaneRun(Step(s, es[0]), es[1..]))
  }

  predicate NoEviction(s: Store, es: seq<Event>)
    decreases |es|
  {
    es == [] || ((es[0].Revoke? ==> HasRoom(s, es[0].now)) && NoEviction(Step(s, es[0]), es[1..]))
  }

  /** List and ideal give the same answer for every token that is not expired at `now`. */
  ghost predicate Agrees(list: seq<Entry>, revoked: set<string>, now: int) {
    forall t :: ExpOf(t) != 0 && now < ExpOf(t) ==> (Listed(list, t) <==> t in revoked)
  }

  ghost predicate Inv(s: Store) {
    0 <= s.clock && Ordered(s.list) && Truthful(s.list) && Tokens(s.list) <= s.revoked
  }

  lemma {:induction false} InsertAllMeans(l: seq<Entry>, entries: seq<Entry>)
    requires Ordered(l) && Truthful(l) && Truthful(entries)
    ensures Ordered(InsertAll(l, entries)) && Truthful(InsertAll(l, entries))
    ensures forall t :: Listed(InsertAll(l, entries), t) <==> Listed(l, t) || t in Tokens(entries)
    decreases |entries|
  {
    if entries != [] {
      InsertMeans(l, entries[0]);
      InsertLists(l, entries[0]);
      InsertAllMeans(Insert(l, entries[0]), entries[1..]);
      assert entries == [entries[0]] + entries[1..];
    }
  }

  lemma ListedTokens(l: seq<Entry>, t: string)
    ensures Listed(l, t) <==> t in Tokens(l)
  {}

  lemma RevokeKeepsInv(s: Store, token: string, now: int)
    requires Inv(s) && s.clock <= now
    ensures Inv(Step(s, Revoke(token, now)))
  {
    if ExpOf(token) != 0 {
      UnexpiredMeans(s.list, now);
      EvictionMeans(Unexpired(s.list, now), s.limit);
      EvictionMembers(Unexpired(s.list, now), s.limit);
      InsertMeans(EvictTo(Unexpired(s.list, now), s.limit), Entry(token, ExpOf(token)));
    }
  }

  lemma StepKeepsInv(s: Store, e: Event)
    requires Inv(s) && Sane(s, e)
    ensures Inv(Step(s, e))
  {
    match e
    case Revoke(token, now) => RevokeKeepsInv(s, token, now);
    case Cleanup(now) => UnexpiredMeans(s.list, now);
    case Load(entries) =>
      InsertAllMeans(s.list, entries);
      forall t | t in Tokens(InsertAll(s.list, entries)) ensures t in s.revoked + Tokens(entries) {
        ListedTokens(InsertAll(s.list, entries), t);
        ListedTokens(s.list, t);
      }
    case SetLimit(_) =>
  }

  lemma PurgingAgrees(s: Store, now: int)
    requires Inv(s) && Agrees(s.list, s.revoked, s.clock) && s.clock <= now
    ensures Agrees(Unexpired(s.list, now), s.revoked, now)
  {
    UnexpiredMeans(s.list, now);
    forall t | ExpOf(t) != 0 && now < ExpOf(t)
      ensures Listed(Unexpired(s.list, now), t) <==> t in s.revoked
    {
      if t in s.revoked {
        var e :| e in s.list && e.token == t;
        assert e in Unexpired(s.list, now);
      }
    }
  }

  /** After one revocation the list still agrees with the ideal exactly when it had room, or
      when the only entry it had to evict was the revoked token's own. Both can be seen before
      the call. */
  lemma RevokeAgreesIff(s: Store, token: string, now: int)
    requires Inv(s) && Agrees(s.list, s.revoked, s.clock) && s.clock <= now && ExpOf(token) != 0
    ensures
      var s' := Step(s, Revoke(token, now));
      var live := Unexpired(s.list, now);
      Agrees(s'.list, s'.revoked, now)
      <==> HasRoom(s, now) || (|live| == s.limit && live[Oldest(live)].token == token)
  {
    var s' := Step(s, Revoke(token, now));
    var live := Unexpired(s.list, now);
    PurgingAgrees(s, now);
    UnexpiredMeans(s.list, now);
    AgreesAfterEviction(s, s', live, token, now);
    GoneOnlyToken(live, s.limit, token);
  }

  lemma AgreesAfterEviction(s: Store, s': Store, live: seq<Entry>, token: string, now: int)
    requires Ordered(live) && Agrees(live, s.revoked, now)
    requires forall x :: x in live ==> 0 <= now < x.expireAt == ExpOf(x.token)
    requires s'.revoked == s.revoked + {token} && ExpOf(token) != 0
    requires s'.list == Insert(EvictTo(live, s.limit), Entry(token, ExpOf(token)))
    ensures Agrees(s'.list, s'.revoked, now) <==> forall x :: x in Evictions(live, s.limit) ==> x.token == token
  {
    var kept, gone := EvictTo(live, s.limit), Evictions(live, s.limit);
    EvictionMeans(live, s.limit);
    EvictionMembers(live, s.limit);
    InsertLists(kept, Entry(token, ExpOf(token)));
    GoneTokensMatter(s, s', kept, gone, token, now);
  }

  lemma GoneTokensMatter(s: Store, s': Store, kept: seq<Entry>, gone: seq<Entry>, token: string, now: int)
    requires s'.revoked == s.revoked + {token}
    requires forall t :: Listed(s'.list, t) <==> Listed(kept, t) || t == token
    requires forall t :: ExpOf(t) != 0 && now < ExpOf(t) ==> (Listed(kept, t) || Listed(gone, t) <==> t in s.revoked)
    requires forall x, y :: x in gone && y in kept ==> x.token != y.token
    requires forall x :: x in gone ==> now < x.expireAt == ExpOf(x.token) && ExpOf(x.token) != 0
    ensures Agrees(s'.list, s'.revoked, now) <==> forall x :: x in gone ==> x.token == token
  {
    if Agrees(s'.list, s'.revoked, now) {
      forall x | x in gone ensures x.token == token {
        assert Listed(gone, x.token);
      }
    }
  }

  lemma GoneOnlyToken(live: seq<Entry>, limit: int, token: string)
    requires Ordered(live)
    ensures (forall x :: x in Evictions(live, limit) ==> x.token == token)
      <==> limit <= 0 || |live| < limit || (|live| == limit && live[Oldest(live)].token == token)
  {
    if limit > 0 && |live| >= limit {
      var o := Oldest(live);
      var rest := Without(live, o);
      assert Evictions(live, limit) == [live[o]] + Evictions(rest, limit);
      assert live[o] in Evictions(live, limit);
      if |live| > limit {
        WithoutMeans(live, o);
        var o' := Oldest(rest);
        assert Evictions(rest, limit)[0] == rest[o'];
        assert rest[o'] in Evictions(live, limit);
        TokensDiffer(live, o, if o' < o then o' else o' + 1);
      }
    }
  }

  lemma StepAgrees(s: Store, e: Event)
    requires Inv(s) && Sane(s, e) && Agrees(s.list, s.revoked, s.clock)
    requires e.Revoke? ==> HasRoom(s, e.now)
    ensures Agrees(Step(s, e).list, Step(s, e).revoked, Step(s, e).clock)
  {
    match e
    case Revoke(token, now) =>
      PurgingAgrees(s, now);
      if ExpOf(token) != 0 { RevokeAgreesIff(s, token, now); }
    case Cleanup(now) => PurgingAgrees(s, now);
    case Load(entries) => InsertAllMeans(s.list, entries);
    case SetLimit(_) =>
  }

  lemma {:induction false} RunAgrees(s: Store, es: seq<Event>)
    requires Inv(s) && Agrees(s.list, s.revoked, s.clock)
    requires SaneRun(s, es) && NoEviction(s, es)
    ensures var s' := Run(s, es); Inv(s') && Agrees(s'.list, s'.revoked, s'.clock)
    decreases |es|
  {
    if es != [] {
      StepKeepsInv(s, es[0]);
      StepAgrees(s, es[0]);
      RunAgrees(Step(s, es[0]), es[1..]);
    }
  }

  function Empty(limit: int, clock: int): Store {
    Store([], limit, clock, [], {})
  }

  /** As long as no eviction fires, purging expired entries is invisible: after any run,
      `verify` answers as it would with the set of all tokens ever revoked or loaded. */
  lemma VerifyIgnoresPurging(hmac: Hmac, limit: int, clock: int, es: seq<Event>,
                             token: string, secret: string, now: int, start: int)
    requires 0 <= clock
    requires SaneRun(Empty(limit, clock), es) && NoEviction(Empty(limit, clock), es)
    requires Run(Empty(limit, clock), es).clock <= now
    ensures
      var s := Run(Empty(limit, clock), es);
      Accepted(hmac, token, secret, now, start, Listed(s.list, token))
      <==> Accepted(hmac, token, secret, now, start, token in s.revoked)
  {
    RunAgrees(Empty(limit, clock), es);
  }

  /** All loads read back what the callback has stored. */
  predicate LoadsPersisted(s: Store, es: seq<Event>)
    decreases |es|
  {
    es == [] ||
    ((es[0].Load? ==> forall e :: e in es[0].entries ==> e in s.persisted) &&
     LoadsPersisted(Step(s, es[0]), es[1..]))
  }

  /** The stored entries cover every revoked token that can still be accepted. */
  ghost predicate Covered(s: Store) {
    && Truthful(s.persisted)
    && forall t :: ExpOf(t) != 0 ==> (t in Tokens(s.persisted) <==> t in s.revoked)
  }

  lemma {:induction false} RunCovered(s: Store, es: seq<Event>)
    requires Covered(s) && LoadsPersisted(s, es)
    ensures Covered(Run(s, es))
    decreases |es|
  {
    if es != [] {
      var s' := Step(s, es[0]);
      if es[0].Revoke? && ExpOf(es[0].token) != 0 {
        var e := Entry(es[0].token, ExpOf(es[0].token));
        assert forall x :: x in s'.persisted <==> x in s.persisted || x == e;
        assert Tokens(s'.persisted) == Tokens(s.persisted) + {e.token};
      }
      RunCovered(s', es[1..]);
    }
  }

  /** A restart that loads what the callback stored knows every revoked token again, even the
      ones that had been evicted or purged before. */
  lemma RestartRestores(limit: int, clock: int, es: seq<Event>, now: int)
    requires LoadsPersisted(Empty(limit, clock), es)
    ensures
      var s := Run(Empty(limit, clock), es);
      Agrees(InsertAll([], s.persisted), s.revoked, now)
  {
    var s := Run(Empty(limit, clock), es);
    RunCovered(Empty(limit, clock), es);
    InsertAllMeans([], s.persisted);
  }

  lemma SecondRevokeEvicts(first: string, exp1: int, second: string, exp2: int, now: int)
    requires exp1 != 0 && exp2 != 0 && now < exp1
    ensures AfterRevoke(AfterRevoke([], 1, first, exp1, now), 1, second, exp2, now) == [Entry(second, exp2)]
  {
    var l := [Entry(first, exp1)];
    assert AfterRevoke([], 1, first, exp1, now) == l;
    assert l[1..] == [] && Unexpired(l, now) == l;
    assert Without(l, Oldest(l)) == [];
  }

  /** With room for one entry, revoking a second token makes an unexpired first one acceptable
      again. */
  lemma EvictedTokenIsAcceptedAgain(hmac: Hmac, secret: string, t0: int, e: int)
    requires 0 < t0 && 0 < e && t0 + e < INT64_MAX
    ensures
      var first, second := Signed(hmac, secret, t0, e), Signed(hmac, secret, t0, e + 1);
      var s := Step(Step(Empty(1, t0), Revoke(first, t0)), Revoke(second, t0));
      first in s.revoked && Accepted(hmac, first, secret, t0, 0, Listed(s.list, first))
  {
    var first, second := Signed(hmac, secret, t0, e), Signed(hmac, secret, t0, e + 1);
    SignedTimes(hmac, secret, t0, e);
    SignedTimes(hmac, secret, t0, e + 1);
    SecondRevokeEvicts(first, t0 + e, second, t0 + e + 1, t0);
    SignedTokenAccepted(hmac, secret, t0, e, t0, 0, false);
  }

  /** The static members of `JwtUtil`. */
  class JwtUtil {
    const hmac: Hmac
    var blacklist: seq<Entry>
    var maxEntries: int
    var startTimeSeconds: int
    var persisted: seq<Entry>

    /** The order that `std::set` keeps. */
    ghost predicate Valid()
      reads this
    {
      Ordered(blacklist)
    }

    constructor (hmac: Hmac)
      ensures Valid()
      ensures blacklist == [] && maxEntries == 1000 && startTimeSeconds == 0 && persisted == []
      ensures this.hmac == hmac
    {
      this.hmac := hmac;
      blacklist, maxEntries, startTimeSeconds, persisted := [], 1000, 0, [];
    }

    /** `cleanup`, which is also the first part of `revoke`. */
    method CleanUp(now: int)
      requires Valid()
      modifies this`blacklist
      ensures Valid()
      ensures blacklist == Unexpired(old(blacklist), now)
    {
      ghost var before := blacklist;
      var i := 0;
      while i < |blacklist|
        invariant i <= |blacklist|
        invariant blacklist[..i] + Unexpired(blacklist[i..], now) == Unexpired(before, now)
        decreases |blacklist| - i
      {
        PurgeStep(blacklist, i, now);
        if blacklist[i].expireAt <= now {
          blacklist := Without(blacklist, i);
        } else {
          i := i + 1;
        }
      }
      assert blacklist == Unexpired(before, now);
      UnexpiredMeans(before, now);
    }

    method FindOldest() returns (oldest: nat)
      requires blacklist != []
      ensures oldest == Oldest(blacklist)
    {
      oldest := 0;
      var i := 1;
      while i < |blacklist|
        invariant 1 <= i <= |blacklist| && oldest == Oldest(blacklist[..i])
      {
        assert blacklist[..i + 1][..i] == blacklist[..i];
        if blacklist[i].expireAt < blacklist[oldest].expireAt {
          oldest := i;
        }
        i := i + 1;
      }
      assert blacklist[..i] == blacklist;
    }

    method MakeRoom()
      requires Valid()
      modifies this`blacklist
      ensures Valid()
      ensures blacklist == EvictTo(old(blacklist), maxEntries)
    {
      EvictionMeans(blacklist, maxEntries);
      while maxEntries > 0 && |blacklist| >= maxEntries
        invariant EvictTo(blacklist, maxEntries) == EvictTo(old(blacklist), maxEntries)
        decreases |blacklist|
      {
        var oldest := FindOldest();
        blacklist := Without(blacklist, oldest);
      }
    }

    method Revoke(token: string, now: int)
      requires Valid()
      modifies this`blacklist, this`persisted
      ensures Valid()
      ensures blacklist == AfterRevoke(old(blacklist), maxEntries, token, ExpOf(token), now)
      ensures persisted == old(persisted) + if ExpOf(token) == 0 then [] else [Entry(token, ExpOf(token))]
    {
      var exp := GetTime(token, EXP);
      if exp == 0 {
        return;
      }
      CleanUp(now);
      MakeRoom();
      InsertMeans(blacklist, Entry(token, exp));
      blacklist := Insert(blacklist, Entry(token, exp));
      persisted := persisted + [Entry(token, exp)];
    }

    method IsRevoked(token: string) returns (r: bool)
      requires Valid()
      ensures r <==> Listed(blacklist, token)
    {
      var i := 0;
      while i < |blacklist| && Less(blacklist[i].token, token)
        invariant i <= |blacklist|
        invariant forall j :: 0 <= j < i ==> Less(blacklist[j].token, token)
      {
        i := i + 1;
      }
      r := i < |blacklist| && blacklist[i].token == token;
      FoundByOrder(blacklist, token, i);
    }

    method LoadEntries(entries: seq<Entry>)
      requires Valid()
      modifies this`blacklist
      ensures Valid()
      ensures blacklist == InsertAll(old(blacklist), entries)
    {
      var i := 0;
      while i < |entries|
        invariant i <= |entries|
        invariant Valid() && InsertAll(blacklist, entries[i..]) == InsertAll(old(blacklist), entries)
      {
        InsertMeans(blacklist, entries[i]);
        blacklist := Insert(blacklist, entries[i]);
        i := i + 1;
      }
    }

    method VerifyToken(token: string, secret: string, now: int) returns (ok: bool)
      requires Valid()
      ensures ok <==> Accepted(hmac, token, secret, now, startTimeSeconds, Listed(blacklist, token))
    {
      var revoked := IsRevoked(token);
      ok := Verify(hmac, token, secret, now, startTimeSeconds, revoked);
    }
  }
}
