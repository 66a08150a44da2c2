/** The in-process cache: string keys, values with an expiry, one key space for two kinds of entry. */
module Cache {
  import opened Text

  datatype Value = Verdict(blocked: bool) | Target(ip: string)
  datatype Item = Item(value: Value, expiry: nat)
  type Items = map<string, Item>

  /** Default expiration, in milliseconds. */
  const TTL := 60_000

  predicate Live(items: Items, key: string, now: nat) {
    key in items && now <= items[key].expiry
  }

  function Put(items: Items, key: string, value: Value, now: nat): Items {
    items[key := Item(value, now + TTL)]
  }

  function Evict(items: Items, key: string): Items {
    items - {key}
  }

  // ---------- keys ----------

  function BlockKey(user: string, domain: string): string {
    user + ":" + domain
  }

  function RedirectKey(user: string, domain: string): string {
    "redirect:" + user + ":" + domain
  }

  /** The two kinds of entries. */
  datatype Kind = Blocking | Redirecting

  /** What stands before the colon and the domain in a key. */
  function Space(kind: Kind, user: string): string {
    if kind.Blocking? then user else "redirect:" + user
  }

  function KeyOf(kind: Kind, user: string, domain: string): string {
    if kind.Blocking? then BlockKey(user, domain) else RedirectKey(user, domain)
  }

  lemma KeyIsSpaced(kind: Kind, user: string, domain: string)
    ensures KeyOf(kind, user, domain) == BlockKey(Space(kind, user), domain)
  {
  }

  /** Some key of the one space is a key of the other. */
  predicate Clash(a: string, b: string) {
    a == b || HasPrefix(a, b + ":") || HasPrefix(b, a + ":")
  }

  lemma PrefixOfConcat(a: string, b: string, p: string)
    ensures HasPrefix(a + b, p) <==>
            if |p| <= |a| then HasPrefix(a, p) else HasPrefix(p, a) && HasPrefix(b, p[|a|..])
  {
    var s := a + b;
    if |p| <= |a| {
      assert s[..|p|] == a[..|p|];
    } else if |p| <= |s| {
      assert s[..|p|] == a + b[..|p| - |a|];
      assert p == p[..|a|] + p[|a|..];
    }
  }

  /** Which keys of the space b start with "a:", for all strings a and b. */
  lemma KeyPrefix(a: string, b: string, domain: string)
    ensures HasPrefix(BlockKey(b, domain), a + ":") <==>
            a == b || HasPrefix(b, a + ":") || (HasPrefix(a, b + ":") && HasPrefix(domain, a[|b| + 1..] + ":"))
  {
    var p := a + ":";
    PrefixOfConcat(b + ":", domain, p);
    if |p| <= |b| + 1 {
      PrefixOfConcat(b, ":", p);
      if |p| == |b| + 1 {
        SameLengthPrefix(b + ":", p);
        DropColon(a, b);
      }
    } else {
      assert p[|b| + 1..] == a[|b| + 1..] + ":";
      PrefixOfConcat(a, ":", b + ":");
    }
  }

  lemma SameLengthPrefix(s: string, p: string)
    requires |s| == |p|
    ensures HasPrefix(s, p) <==> s == p
  {
  }

  lemma DropColon(a: string, b: string)
    ensures a + ":" == b + ":" <==> a == b
  {
    assert (a + ":")[..|a|] == a && (b + ":")[..|b|] == b;
  }

  lemma SpacedKeysCollide(a: string, domain: string, b: string, name: string)
    requires |a| <= |b|
    ensures BlockKey(a, domain) == BlockKey(b, name) <==>
            (a == b && domain == name) || (HasPrefix(b, a + ":") && domain == b[|a| + 1..] + ":" + name)
  {
    var key := BlockKey(b, name);
    KeyPrefix(a, b, name);
    assert HasPrefix(BlockKey(a, domain), a + ":");
    assert BlockKey(a, domain)[|a| + 1..] == domain;
    if HasPrefix(key, a + ":") {
      assert key == (a + ":") + key[|a| + 1..];
      if a == b {
        assert key[|a| + 1..] == name;
      } else {
        assert key[|a| + 1..] == b[|a| + 1..] + ":" + name;
      }
    }
  }

  /** Two users' keys of any kinds collide for some domains if and only if their spaces clash, and then
      only where the one domain spells out the rest of the other user's space. */
  lemma KeysCollide(kind: Kind, user: string, domain: string, other: Kind, owner: string, name: string)
    ensures var a, b := Space(kind, user), Space(other, owner);
            KeyOf(kind, user, domain) == KeyOf(other, owner, name) <==>
            || (a == b && domain == name)
            || (HasPrefix(b, a + ":") && domain == b[|a| + 1..] + ":" + name)
            || (HasPrefix(a, b + ":") && name == a[|b| + 1..] + ":" + domain)
  {
    var a, b := Space(kind, user), Space(other, owner);
    KeyIsSpaced(kind, user, domain);
    KeyIsSpaced(other, owner, name);
    if |a| <= |b| {
      SpacedKeysCollide(a, domain, b, name);
    } else {
      SpacedKeysCollide(b, name, a, domain);
    }
  }

  /** The users whose entries the key scheme keeps apart, from each other and by kind. */
  ghost predicate Apart(users: set<string>) {
    forall u, o :: u in users && o in users ==> (u != o ==> !Clash(u, o)) && !Clash(u, "redirect:" + o)
  }

  lemma RedirectSpacesClash(u: string, o: string)
    ensures Clash("redirect:" + u, "redirect:" + o) <==> Clash(u, o)
  {
    CommonPrefix("redirect:", u + ":", o);
    CommonPrefix("redirect:", o + ":", u);
    assert "redirect:" + u + ":" == "redirect:" + (u + ":") && "redirect:" + o + ":" == "redirect:" + (o + ":");
    assert ("redirect:" + u)[9..] == u && ("redirect:" + o)[9..] == o;
  }

  lemma KeysApart(users: set<string>, kind: Kind, user: string, domain: string,
                  other: Kind, owner: string, name: string)
    requires Apart(users) && user in users && owner in users
    ensures KeyOf(kind, user, domain) == KeyOf(other, owner, name) <==>
            kind == other && user == owner && domain == name
  {
    KeysCollide(kind, user, domain, other, owner, name);
    RedirectSpacesClash(user, owner);
    assert !Clash(user, "redirect:" + owner) && !Clash(owner, "redirect:" + user);
    assert user != owner ==> !Clash(user, owner);
  }

  ghost predicate NoCollisions(users: set<string>) {
    forall kind, u, d, other, o, n :: u in users && o in users && KeyOf(kind, u, d) == KeyOf(other, o, n) ==>
      kind == other && u == o && d == n
  }

  /** Clashing spaces share a key. */
  lemma ClashHasKey(a: string, b: string) returns (d: string, n: string)
    requires Clash(a, b)
    ensures BlockKey(a, d) == BlockKey(b, n)
  {
    if a == b {
      d, n := "", "";
    } else if HasPrefix(b, a + ":") {
      d, n := b[|a| + 1..] + ":", "";
      assert b == a + ":" + b[|a| + 1..];
      assert BlockKey(a, d) == a + ":" + b[|a| + 1..] + ":" + "";
    } else {
      d, n := "", a[|b| + 1..] + ":";
      assert a == b + ":" + a[|b| + 1..];
      assert BlockKey(b, n) == b + ":" + a[|b| + 1..] + ":" + "";
    }
  }

  /** A set of users never shares a cache key, between users or between kinds, if and only if it is apart. */
  lemma ApartIffNoCollisions(users: set<string>)
    ensures Apart(users) <==> NoCollisions(users)
  {
    if Apart(users) {
      forall kind, u, d, other, o, n | u in users && o in users && KeyOf(kind, u, d) == KeyOf(other, o, n)
        ensures kind == other && u == o && d == n
      {
        KeysApart(users, kind, u, d, other, o, n);
      }
    } else {
      var u, o :| u in users && o in users && ((u != o && Clash(u, o)) || Clash(u, "redirect:" + o));
      if u != o && Clash(u, o) {
        var d, n := ClashHasKey(u, o);
        assert KeyOf(Blocking, u, d) == KeyOf(Blocking, o, n);
      } else {
        var d, n := ClashHasKey(u, "redirect:" + o);
        assert KeyOf(Blocking, u, d) == KeyOf(Redirecting, o, n);
      }
    }
  }

  /** Colon-free users other than "redirect" are apart. */
  lemma ColonFreeUsersAreApart(users: set<string>)
    requires forall u :: u in users ==> ':' !in u && u != "redirect"
    ensures Apart(users)
  {
    forall u, o | u in users && o in users
      ensures (u != o ==> !Clash(u, o)) && !Clash(u, "redirect:" + o)
    {
      NoColonNoPrefix(u, o);
      NoColonNoPrefix(o, u);
      NoColonNoPrefix(u, "redirect:" + o);
      RedirectSpaceOf(u, o);
    }
  }

  lemma NoColonNoPrefix(u: string, o: string)
    requires ':' !in u
    ensures !HasPrefix(u, o + ":")
  {
    if |o| < |u| {
      assert (o + ":")[|o|] == ':' && u[|o|] in u;
    }
  }

  // ---------- evicting a user ----------

  predicate ClearedBy(user: string, key: string) {
    HasPrefix(key, user + ":") || HasPrefix(key, "redirect:" + user + ":")
  }

  /** The sweep sees unexpired entries only; expired ones are invisible anyway. */
  function Clear(items: Items, user: string, now: nat): Items {
    items - set key | key in items && Live(items, key, now) && ClearedBy(user, key)
  }

  /** A sweep takes exactly the visible entries it covers, whatever the user. */
  lemma ClearIsExact(items: Items, user: string, now: nat, key: string)
    ensures var cleared := Clear(items, user, now);
            && (Live(cleared, key, now) <==> Live(items, key, now) && !ClearedBy(user, key))
            && (key in cleared ==> key in items && cleared[key] == items[key])
  {
  }

  lemma CommonPrefix(p: string, a: string, b: string)
    ensures HasPrefix(p + b, p + a) <==> HasPrefix(b, a)
  {
    PrefixOfConcat(p, b, p + a);
    assert (p + a)[|p|..] == a;
    if a == "" {
      assert p + a == p;
    }
  }

  /** Which keys a sweep covers, for any two users. */
  predicate Covered(user: string, space: string, domain: string) {
    || user == space || HasPrefix(space, user + ":")
    || (HasPrefix(user, space + ":") && HasPrefix(domain, user[|space| + 1..] + ":"))
  }

  lemma SweepCovers(user: string, kind: Kind, owner: string, domain: string)
    ensures ClearedBy(user, KeyOf(kind, owner, domain)) <==>
            Covered(user, Space(kind, owner), domain) || Covered("redirect:" + user, Space(kind, owner), domain)
  {
    KeyIsSpaced(kind, owner, domain);
    KeyPrefix(user, Space(kind, owner), domain);
    KeyPrefix("redirect:" + user, Space(kind, owner), domain);
  }

  /** Between colon-free users a sweep covers its own user's keys and, beyond that, exactly this: the user
      "redirect" sweeps everybody's redirects, and that user's block entries for domains that start with
      "u:" are swept with u's. */
  lemma ColonFreeSweep(user: string, owner: string, domain: string)
    requires ':' !in user && ':' !in owner
    ensures ClearedBy(user, RedirectKey(owner, domain)) <==> user == owner || user == "redirect"
    ensures ClearedBy(user, BlockKey(owner, domain)) <==>
            user == owner || (owner == "redirect" && HasPrefix(domain, user + ":"))
  {
    SweepCovers(user, Redirecting, owner, domain);
    SweepCovers(user, Blocking, owner, domain);
    NoColonNoPrefix(user, owner);
    NoColonNoPrefix(owner, user);
    NoColonNoPrefix(user, "redirect:" + owner);
    NoColonNoPrefix(owner, "redirect:" + user);
    RedirectSpaceOf(user, owner);
    RedirectSpaceOf(owner, user);
    RedirectSpacesClash(user, owner);
  }

  /** "redirect:o" starts with "u:", for a colon-free u, only if u is "redirect". */
  lemma RedirectSpaceOf(u: string, o: string)
    requires ':' !in u
    ensures HasPrefix("redirect:" + o, u + ":") <==> u == "redirect"
    ensures u != "redirect:" + o
    ensures ("redirect:" + o)[|"redirect"| + 1..] == o
  {
    var r := "redirect:" + o;
    assert r[8] == ':';
    assert forall i :: 0 <= i < 8 ==> r[i] == "redirect"[i] && r[i] != ':';
    if HasPrefix(r, u + ":") {
      assert r[|u|] == (u + ":")[|u|] == ':';
      assert forall i :: 0 <= i < |u| ==> u[i] in u && r[i] == u[i];
      assert u == r[..8];
    }
    if u == "redirect" {
      assert u + ":" == r[..9];
    }
  }

  /** Among users kept apart, a sweep covers exactly its own user's keys, of both kinds. */
  lemma SweepIsOwn(users: set<string>, user: string, kind: Kind, owner: string, domain: string)
    requires Apart(users) && user in users && owner in users
    ensures ClearedBy(user, KeyOf(kind, owner, domain)) <==> user == owner
  {
    SweepCovers(user, kind, owner, domain);
    RedirectSpacesClash(user, owner);
    assert !Clash(user, "redirect:" + owner) && !Clash(owner, "redirect:" + user);
    assert user != owner ==> !Clash(user, owner);
  }

  // ---------- kinds of entries ----------

  /** The users whose block keys are no redirect keys. */
  predicate Safe(user: string) {
    !HasPrefix(user + ":", "redirect:")
  }

  lemma UnsafeUsers(user: string)
    ensures !Safe(user) <==> user == "redirect" || HasPrefix(user, "redirect:")
  {
    assert "redirect" + ":" == "redirect:";
    PrefixOfConcat(user, ":", "redirect:");
    if |user| == 8 {
      SameLengthPrefix(user + ":", "redirect:");
      DropColon(user, "redirect");
    }
  }

  /** A block key looks like a redirect key exactly if its user's ID does. */
  lemma SafeKeys(user: string, domain: string)
    ensures HasPrefix(BlockKey(user, domain), "redirect:") <==> !Safe(user)
    ensures HasPrefix(RedirectKey(user, domain), "redirect:")
  {
    assert "redirect" + ":" == "redirect:";
    KeyPrefix("redirect", user, domain);
    NoColonNoPrefix("redirect", user);
    UnsafeUsers(user);
    assert RedirectKey(user, domain)[..9] == "redirect:";
  }

  /** Every key that does not look like a redirect key holds a verdict. */
  predicate VerdictsInPlace(items: Items) {
    forall key :: key in items && !HasPrefix(key, "redirect:") ==> items[key].value.Verdict?
  }

  /** Every key that looks like a redirect key holds a target. */
  predicate TargetsInPlace(items: Items) {
    forall key :: key in items && HasPrefix(key, "redirect:") ==> items[key].value.Target?
  }
}
