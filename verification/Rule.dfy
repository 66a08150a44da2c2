/** The process-wide rule engine: the checker if it was initialised, an inline fallback otherwise. */
module Rule {
  import opened Text
  import opened Patterns
  import opened Settings
  import opened Checker

  const UINT64 := 0x1_0000_0000_0000_0000

  class Engine {
    var global: Checker?
    var totalChecks: nat

    constructor (global: Checker?)
      ensures this.global == global && totalChecks == 0
    {
      this.global := global;
      totalChecks := 0;
    }

    /** The checker normalises the name once more. */
    method CheckRule(user: string, domain: string, now: nat, filled: nat, reachable: bool) returns (answer: Answer)
      modifies this`totalChecks, if global == null then {} else {global}
      ensures totalChecks == (old(totalChecks) + 1) % UINT64
      ensures global == null ==> answer == AnswerOf(Fallback(FALLBACK, Normalize(domain)))
      ensures global != null ==>
                global.enabled == old(global.enabled)
                && (global.cache, answer) ==
                   CheckStep(global.Cfg(), old(global.cache), RulesOf(global.rdb.store, user),
                             user, Normalize(domain), now, filled, reachable)
    {
      totalChecks := (totalChecks + 1) % UINT64;
      var name := ToLower(TrimDot(domain));
      if global != null {
        answer := global.Check(user, name, now, filled, reachable);
        return;
      }
      for i := 0 to |FALLBACK|
        invariant forall j :: 0 <= j < i ==> !Covers(FALLBACK[j], name)
      {
        if name == FALLBACK[i] || HasSuffix(name, "." + FALLBACK[i]) {
          return Block;
        }
      }
      return Allow;
    }

    method GetRedirectDomain(user: string, domain: string, now: nat, filled: nat, budget: nat)
      returns (ip: string, ok: bool)
      modifies if global == null then {} else {global}
      ensures global == null ==> ip == "" && !ok
      ensures global != null ==>
                global.enabled == old(global.enabled)
                && (global.cache, (ip, ok)) ==
                   GetStep(global.Cfg(), old(global.cache), TargetsOf(global.rdb.store, user),
                           user, domain, now, filled, budget)
    {
      if global != null {
        ip, ok := global.GetRedirect(user, domain, now, filled, budget);
        return;
      }
      return "", false;
    }
  }

  /** Normalising twice changes nothing more exactly when the name does not end in two dots. */
  lemma NormalizeTwice(domain: string)
    ensures Normalize(Normalize(domain)) == Normalize(domain) <==> !HasSuffix(domain, "..")
  {
    StillEndsInDot(domain);
    LowerTwice(TrimDot(domain));
    assert HasSuffix(Normalize(domain), ".") ==> |Normalize(Normalize(domain))| == |Normalize(domain)| - 1;
  }

  lemma NoEntryEndsInDot(entries: seq<string>, domain: string)
    requires forall i :: 0 <= i < |entries| ==> entries[i] != "" && entries[i][|entries[i]| - 1] != '.'
    ensures !Fallback(entries, domain + ".")
  {
    forall i | 0 <= i < |entries| ensures !Covers(entries[i], domain + ".") {
      var e := "." + entries[i];
      assert e[|e| - 1] != '.';
      assert (domain + ".")[|domain|] == '.';
    }
  }

  /** So block rules and redirects see different names for a query ending in two dots, and the inline
      fallback lets through what the same list in a checker blocks. */
  lemma DoubleDotSplitsDecisions(entries: seq<string>, k: nat, user: string)
    requires k < |entries| && ToLower(entries[k]) == entries[k]
    requires forall i :: 0 <= i < |entries| ==> entries[i] != "" && entries[i][|entries[i]| - 1] != '.'
    ensures var query := entries[k] + "..";
            && !Fallback(entries, Normalize(query))
            && CheckStep(Config(false, entries), map[], {}, user, Normalize(query), 0, 0, true).1 == Block
  {
    var d := entries[k];
    EndsInDot(d + "..");
    EndsInDot(d + ".");
    assert TrimDot(d + "..") == d + "." && TrimDot(d + ".") == d;
    assert ToLower(d + ".") == d + ".";
    NoEntryEndsInDot(entries, d);
    assert Covers(entries[k], d);
  }
}
