/**
 Multi-signature authority checking. An authority is satisfied when the keys that signed and the
 accounts whose own authorities are satisfied carry enough weight. The checker recurses to a
 bounded depth and remembers approved accounts across depths; here it is compared with a
 definition that has neither the memory nor the order of evaluation.
 */
module SignState {
  type Name = string
  type Key = nat

  const WEIGHT_LIMIT: nat := 0x1_0000_0000

  /** Members in the order of the underlying sorted maps, with their weights. */
  datatype Authority = Authority(threshold: nat, accounts: seq<(Name, nat)>, keys: seq<(Key, nat)>)

  /** What is fixed during a check: authorities of accounts, and the limits (0 means none). */
  datatype Rules = Rules(active: Name -> Authority, maxRecursion: nat, maxMembership: nat, maxAccountAuths: nat)

  // ---- What it means for an authority to be satisfied ----------------------------------------

  /** The weight of the keys that signed. */
  ghost function KeyWeight(keys: seq<(Key, nat)>, signers: set<Key>): nat {
    if keys == [] then 0
    else
      var last := keys[|keys| - 1];
      KeyWeight(keys[..|keys| - 1], signers) + if last.0 in signers then last.1 else 0
  }

  /** a counts: it is approved from the start, or its own authority is satisfied one level down. */
  ghost predicate Good(r: Rules, signers: set<Key>, base: set<Name>, d: nat, a: Name)
    decreases d, 0, 0
  {
    a in base || (d > 0 && Satisfied(r, signers, base, d - 1, r.active(a)))
  }

  /** The weight of the accounts that count. */
  ghost function AccountWeight(r: Rules, signers: set<Key>, base: set<Name>, d: nat, accounts: seq<(Name, nat)>): nat
    decreases d, 1, |accounts|
  {
    if accounts == [] then 0
    else
      var last := accounts[|accounts| - 1];
      AccountWeight(r, signers, base, d, accounts[..|accounts| - 1])
        + if Good(r, signers, base, d, last.0) then last.1 else 0
  }

  /** The authority is reached by a derivation at most d levels deep. */
  ghost predicate Satisfied(r: Rules, signers: set<Key>, base: set<Name>, d: nat, a: Authority)
    decreases d, 2, 0
  {
    KeyWeight(a.keys, signers) + AccountWeight(r, signers, base, d, a.accounts) >= a.threshold
  }

  /** The authority is reached by some finite derivation. */
  ghost predicate Derivable(r: Rules, signers: set<Key>, base: set<Name>, a: Authority) {
    exists d: nat :: Satisfied(r, signers, base, d, a)
  }

  ghost function AllAccounts(accounts: seq<(Name, nat)>): nat {
    if accounts == [] then 0 else AllAccounts(accounts[..|accounts| - 1]) + accounts[|accounts| - 1].1
  }

  ghost function AllKeys(keys: seq<(Key, nat)>): nat {
    if keys == [] then 0 else AllKeys(keys[..|keys| - 1]) + keys[|keys| - 1].1
  }

  /** The weights of the authority add up within 32 bits. */
  ghost predicate Fits(a: Authority) {
    AllKeys(a.keys) + AllAccounts(a.accounts) < WEIGHT_LIMIT
  }

  /** The weights can be added up, and the members are not more than the check looks at. */
  ghost predicate Roomy(r: Rules, a: Authority) {
    && Fits(a)
    && (r.maxMembership == 0 || |a.keys| + |a.accounts| < r.maxMembership
        || (|a.keys| + |a.accounts| == r.maxMembership && a.threshold > 0))
  }

  /** The first m members of an authority, its keys first. */
  ghost function Front(a: Authority, m: nat): Authority {
    Authority(a.threshold,
      if m <= |a.keys| then [] else if m - |a.keys| < |a.accounts| then a.accounts[..m - |a.keys|] else a.accounts,
      if m < |a.keys| then a.keys[..m] else a.keys)
  }

  /** What the check may look at: all members, or with a limit on them the first so many. */
  ghost function Seen(r: Rules, a: Authority): Authority {
    if r.maxMembership == 0 then a else Front(a, r.maxMembership)
  }

  /** No authority of an account is too large for the check. */
  ghost predicate AllRoomy(r: Rules) {
    forall a :: Roomy(r, r.active(a))
  }

  /** How many accounts a check that goes d levels down from these accounts can come to look at. */
  ghost function Visits(r: Rules, d: nat, accounts: seq<(Name, nat)>): nat
    decreases d, 1, |accounts|
  {
    if accounts == [] then 0
    else Visits(r, d, accounts[..|accounts| - 1]) + MemberVisits(r, d, accounts[|accounts| - 1].0)
  }

  ghost function MemberVisits(r: Rules, d: nat, a: Name): nat
    decreases d, 0
  {
    if d == 0 then 0 else 1 + Visits(r, d - 1, r.active(a).accounts)
  }

  /** The limit on the number of accounts is not reached, however the check goes. */
  ghost predicate Affordable(r: Rules, count: nat) {
    r.maxAccountAuths == 0 || count <= r.maxAccountAuths
  }

  /** The keys of an authority. */
  ghost function KeysOf(keys: seq<(Key, nat)>): set<Key> {
    set i | 0 <= i < |keys| :: keys[i].0
  }

  /** The keys of an authority and of those it leads to over account members, d levels down. */
  ghost function Reached(r: Rules, d: nat, a: Authority): set<Key>
    decreases d, 1
  {
    KeysOf(a.keys) + set i, k | 0 <= i < |a.accounts| && k in MemberScope(r, d, a.accounts[i].0) :: k
  }

  ghost function MemberScope(r: Rules, d: nat, a: Name): set<Key>
    decreases d, 0
  {
    if d == 0 then {} else Reached(r, d - 1, r.active(a))
  }

  /** The account was approved, or its own authority or one of the others given for it has a derivation. */
  ghost predicate Acts(r: Rules, signers: set<Key>, base: set<Name>, others: seq<Authority>, a: Name) {
    a in base || Derivable(r, signers, base, r.active(a)) || exists x | x in others :: Derivable(r, signers, base, x)
  }

  /** The authority is satisfied within the depth the check goes to, and within its other limits. */
  ghost predicate Within(r: Rules, signers: set<Key>, base: set<Name>, a: Authority) {
    && Roomy(r, a) && Affordable(r, 1 + Visits(r, r.maxRecursion, a.accounts))
    && Satisfied(r, signers, base, r.maxRecursion, a)
  }

  /** The account was approved, or its own or one of the other two authorities is satisfied within the depth. */
  ghost predicate ActsWithin(r: Rules, signers: set<Key>, base: set<Name>, others: seq<Authority>, a: Name) {
    a in base || Within(r, signers, base, r.active(a)) || exists x | x in others :: Within(r, signers, base, x)
  }

  // ---- More depth and more signers never hurt --------------------------------------------------

  lemma {:induction false} KeyWeightMono(keys: seq<(Key, nat)>, signers: set<Key>, signers': set<Key>)
    requires signers <= signers'
    ensures KeyWeight(keys, signers) <= KeyWeight(keys, signers')
  {
    if keys != [] {
      KeyWeightMono(keys[..|keys| - 1], signers, signers');
    }
  }

  lemma {:induction false} GoodMono(r: Rules, signers: set<Key>, signers': set<Key>, base: set<Name>, d: nat, e: nat,
      a: Name)
    requires d <= e && signers <= signers' && Good(r, signers, base, d, a)
    ensures Good(r, signers', base, e, a)
    decreases d, 0, 0
  {
    if a !in base {
      SatisfiedMono(r, signers, signers', base, d - 1, e - 1, r.active(a));
    }
  }

  lemma {:induction false} AccountWeightMono(r: Rules, signers: set<Key>, signers': set<Key>, base: set<Name>, d: nat,
      e: nat, accounts: seq<(Name, nat)>)
    requires d <= e && signers <= signers'
    ensures AccountWeight(r, signers, base, d, accounts) <= AccountWeight(r, signers', base, e, accounts)
    decreases d, 1, |accounts|
  {
    if accounts != [] {
      var last := accounts[|accounts| - 1];
      AccountWeightMono(r, signers, signers', base, d, e, accounts[..|accounts| - 1]);
      if Good(r, signers, base, d, last.0) {
        GoodMono(r, signers, signers', base, d, e, last.0);
      }
    }
  }

  lemma {:induction false} SatisfiedMono(r: Rules, signers: set<Key>, signers': set<Key>, base: set<Name>, d: nat,
      e: nat, a: Authority)
    requires d <= e && signers <= signers' && Satisfied(r, signers, base, d, a)
    ensures Satisfied(r, signers', base, e, a)
    decreases d, 2, 0
  {
    KeyWeightMono(a.keys, signers, signers');
    AccountWeightMono(r, signers, signers', base, d, e, a.accounts);
  }

  // ---- The remembered approvals --------------------------------------------------------------

  /** Everything remembered was approved from the start or has a derivation at most e levels deep. */
  ghost predicate Justified(r: Rules, signers: set<Key>, base: set<Name>, approved: set<Name>, e: nat) {
    base <= approved && forall a | a in approved :: Good(r, signers, base, e, a)
  }

  lemma JustifiedMono(r: Rules, signers: set<Key>, signers': set<Key>, base: set<Name>, approved: set<Name>, e: nat,
      e': nat)
    requires Justified(r, signers, base, approved, e) && e <= e' && signers <= signers'
    ensures Justified(r, signers', base, approved, e')
  {
    forall a | a in approved ensures Good(r, signers', base, e', a) {
      GoodMono(r, signers, signers', base, e, e', a);
    }
  }

  lemma KeyNext(keys: seq<(Key, nat)>, signers: set<Key>, i: nat)
    requires i < |keys|
    ensures KeyWeight(keys[..i + 1], signers) ==
      KeyWeight(keys[..i], signers) + if keys[i].0 in signers then keys[i].1 else 0
    ensures AllKeys(keys[..i + 1]) == AllKeys(keys[..i]) + keys[i].1
  {
    assert keys[..i + 1][..i] == keys[..i];
  }

  lemma AccountNext(r: Rules, signers: set<Key>, base: set<Name>, d: nat, accounts: seq<(Name, nat)>, i: nat)
    requires i < |accounts|
    ensures AccountWeight(r, signers, base, d, accounts[..i + 1])
         == AccountWeight(r, signers, base, d, accounts[..i]) + if Good(r, signers, base, d,
             accounts[i].0) then accounts[i].1 else 0
    ensures AllAccounts(accounts[..i + 1]) == AllAccounts(accounts[..i]) + accounts[i].1
  {
    assert accounts[..i + 1][..i] == accounts[..i];
  }

  lemma {:induction false} KeysGrow(keys: seq<(Key, nat)>, signers: set<Key>, j: nat)
    requires j <= |keys|
    ensures AllKeys(keys[..j]) <= AllKeys(keys)
    ensures KeyWeight(keys[..j], signers) <= KeyWeight(keys, signers)
    decreases |keys|
  {
    if j == |keys| {
      assert keys[..j] == keys;
    } else {
      assert keys[..|keys| - 1][..j] == keys[..j];
      KeysGrow(keys[..|keys| - 1], signers, j);
    }
  }

  lemma {:induction false} AccountsGrow(r: Rules, signers: set<Key>, base: set<Name>, d: nat,
      accounts: seq<(Name, nat)>, j: nat)
    requires j <= |accounts|
    ensures AccountWeight(r, signers, base, d, accounts[..j]) <= AccountWeight(r, signers, base, d, accounts)
    ensures AllAccounts(accounts[..j]) <= AllAccounts(accounts)
    decreases |accounts|
  {
    if j == |accounts| {
      assert accounts[..j] == accounts;
    } else {
      assert accounts[..|accounts| - 1][..j] == accounts[..j];
      AccountsGrow(r, signers, base, d, accounts[..|accounts| - 1], j);
    }
  }

  /** 32-bit addition. */
  function AddWeight(total: nat, w: nat): (r: nat)
    ensures r < WEIGHT_LIMIT && r <= total + w
    ensures total + w < WEIGHT_LIMIT ==> r == total + w
  {
    (total + w) % 0x1_0000_0000
  }

  // ---- The checker ---------------------------------------------------------------------------

  /** What the loop over the keys found: the answer already, or the weight so far. */
  datatype KeyResult = Decided(answer: bool) | Undecided(weight: nat)

  /** The keys marked as used. */
  function Marks(provided: map<Key, bool>): set<Key> {
    set k | k in provided && provided[k]
  }

  /** Keys are only ever marked as used, or added because they are available, and only keys in scope. */
  ghost predicate OnlyMarked(before: map<Key, bool>, after: map<Key, bool>, available: set<Key>, scope: set<Key>) {
    && before.Keys <= after.Keys && after.Keys <= before.Keys + available
    && Marks(before) <= Marks(after) && Marks(after) <= Marks(before) + scope
  }

  lemma MarkedTrans(a: map<Key, bool>, b: map<Key, bool>, c: map<Key, bool>, available: set<Key>, scope: set<Key>,
      inner: set<Key>)
    requires OnlyMarked(a, b, available, scope) && OnlyMarked(b, c, available, inner) && inner <= scope
    ensures OnlyMarked(a, c, available, scope) && Marks(b) <= Marks(c)
  {
  }

  lemma MarkedNone(a: map<Key, bool>, available: set<Key>, scope: set<Key>)
    ensures OnlyMarked(a, a, available, scope)
  {
  }

  lemma MarkedWiden(a: map<Key, bool>, b: map<Key, bool>, available: set<Key>, inner: set<Key>, scope: set<Key>)
    requires OnlyMarked(a, b, available, inner) && inner <= scope
    ensures OnlyMarked(a, b, available, scope) && Marks(a) <= Marks(b)
  {
  }

  lemma ReachedKeys(r: Rules, d: nat, a: Authority)
    ensures KeysOf(a.keys) <= Reached(r, d, a)
  {
  }

  lemma ReachedMember(r: Rules, d: nat, a: Authority, i: nat)
    requires i < |a.accounts|
    ensures MemberScope(r, d, a.accounts[i].0) <= Reached(r, d, a)
  {
  }

  lemma {:induction false} VisitsNext(r: Rules, d: nat, accounts: seq<(Name, nat)>, i: nat)
    requires i < |accounts|
    ensures Visits(r, d, accounts[..i + 1]) == Visits(r, d, accounts[..i]) + MemberVisits(r, d, accounts[i].0)
    ensures Visits(r, d, accounts[..i + 1]) <= Visits(r, d, accounts)
    decreases |accounts| - i
  {
    assert accounts[..i + 1][..i] == accounts[..i];
    if i + 1 < |accounts| {
      VisitsNext(r, d, accounts, i + 1);
    } else {
      assert accounts[..i + 1] == accounts;
    }
  }

  datatype Verdict = Counts | Fails | Skipped | OutOfBudget

  class Checker {
    const rules: Rules
    const available: set<Key>
    var provided: map<Key, bool>
    var approved: set<Name>

    ghost function Signers(): set<Key>
      reads `provided
    {
      provided.Keys + available
    }

    /** The signatures that were used. */
    function Used(): set<Key>
      reads `provided
    {
      Marks(provided)
    }

    constructor (sigs: set<Key>, r: Rules, keys: set<Key>, approvals: set<Name>)
      ensures rules == r && available == keys && approved == {"temp"} + approvals
      ensures provided == map k | k in sigs :: false
    {
      rules, available := r, keys;
      provided := map k | k in sigs :: false;
      approved := {"temp"} + approvals;
    }

    /** Whether k signed or can sign; marks it as used. */
    method SignedBy(k: Key) returns (signed: bool)
      modifies `provided
      ensures signed <==> k in old(Signers())
      ensures provided == if signed then old(provided)[k := true] else old(provided)
      ensures Signers() == old(Signers())
    {
      if k !in provided {
        if k in available {
          provided := provided[k := true];
          return true;
        }
        return false;
      }
      provided := provided[k := true];
      return true;
    }

    /**
     Adds up the signed keys until the threshold or the membership limit is reached. It looks at the
     first n keys, marks those of them that signed, and looks at no more once the threshold is reached.
     */
    method CheckKeys(auth: Authority) returns (result: KeyResult, ghost n: nat)
      modifies `provided
      ensures OnlyMarked(old(provided), provided, available, KeysOf(auth.keys)) && Signers() == old(Signers())
      ensures n <= |auth.keys| && Used() == old(Used()) + KeysOf(auth.keys[..n]) * Signers()
      ensures ShortBefore(auth, n, Signers())
      ensures result == Decided(true) ==> KeyWeight(auth.keys[..n], Used()) >= auth.threshold
      ensures result == Decided(true) ==> n > 0 && auth.keys[n - 1].0 in Signers()
      ensures rules.maxMembership > 0 ==> n <= rules.maxMembership
      ensures 0 < rules.maxMembership <= |auth.keys| ==> result.Decided?
      ensures result == Decided(false) ==> 0 < rules.maxMembership == n
      ensures result == Decided(false) && Fits(auth) && n == |auth.keys| && auth.threshold > 0 ==>
        KeyWeight(auth.keys, Signers()) < auth.threshold
      ensures result.Undecided? ==> n == |auth.keys| && result.weight <= KeyWeight(auth.keys, Used())
      ensures result.Undecided? && Fits(auth) ==> result.weight == KeyWeight(auth.keys, Signers())
      ensures result.Undecided? && auth.threshold > 0 ==> result.weight < auth.threshold
      ensures result.Undecided? ==> result.weight <= AllKeys(auth.keys)
    {
      hide AllKeys, KeyWeight, KeysOf, OnlyMarked, Marks, WeighedKeys, StillShort;
      ghost var signers, start := Signers(), provided;
      var total: nat, i := 0, 0;
      n := 0;
      NoKeys(auth, Used(), signers);
      MarkedNone(provided, available, KeysOf(auth.keys));
      while i < |auth.keys|
        invariant 0 <= i == n <= |auth.keys| && Signers() == signers
        invariant OnlyMarked(start, provided, available, KeysOf(auth.keys))
        invariant Used() == Marks(start) + KeysOf(auth.keys[..i]) * signers
        invariant WeighedKeys(auth, i, total, Used(), signers) && StillShort(auth, i, total, signers)
        invariant rules.maxMembership > 0 ==> i < rules.maxMembership
      {
        var (k, w) := auth.keys[i];
        ghost var provided1, total1 := provided, total;
        var signed := SignedBy(k);
        MarkedNext(start, provided1, provided, available, signers, auth.keys, i);
        if signed {
          total := AddWeight(total, w);
        }
        WeighedNext(auth, i, total1, total, Marks(provided1), Used(), signers);
        ShortEnough(auth, i, total1, signers);
        i, n := i + 1, n + 1;
        if signed && total >= auth.threshold {
          WeighedEnough(auth, i, total, Used(), signers);
          return Decided(true), n;
        }
        ShortNext(auth, i - 1, total1, total, Used(), signers);
        if rules.maxMembership > 0 && i >= rules.maxMembership {
          WeighedAll(auth, i, total, Used(), signers);
          return Decided(false), n;
        }
      }
      WeighedAll(auth, i, total, Used(), signers);
      return Undecided(total), n;
    }

    /**
     The recursive check. `base` are the accounts approved when the outermost check began, and e
     bounds the depth of what has been remembered since. A positive answer has a derivation from
     `base` and the signatures marked as used alone, and only keys the authority leads to are marked;
     an authority that is satisfied within the remaining depth, and within the other limits, is
     never refused.
     */
    method CheckAuthorityImpl(auth: Authority, depth: nat, count: nat, ghost base: set<Name>, ghost e: nat)
      returns (ok: bool, count': nat, ghost e': nat)
      requires depth <= rules.maxRecursion
      requires Justified(rules, Used(), base, approved, e)
      modifies this
      ensures OnlyMarked(old(provided), provided, available, Reached(rules, rules.maxRecursion - depth, auth))
      ensures Signers() == old(Signers()) && old(approved) <= approved
      ensures e <= e' && Justified(rules, Used(), base, approved, e')
      ensures ok ==> Satisfied(rules, Used(), base, e', auth)
      ensures ok && depth < rules.maxRecursion ==> Satisfied(rules, Used(), base, e', Seen(rules, auth))
      ensures AllRoomy(rules) && Roomy(rules, auth)
              && Affordable(rules, count + Visits(rules, rules.maxRecursion - depth, auth.accounts)) ==>
        (Satisfied(rules, Signers(), base, rules.maxRecursion - depth, auth) ==> ok)
      ensures count <= count' <= count + Visits(rules, rules.maxRecursion - depth, auth.accounts)
      ensures rules.maxAccountAuths > 0 ==> count' <= count || count' <= rules.maxAccountAuths
      decreases rules.maxRecursion - depth, 1
    {
      hide Good, Satisfied, KeyWeight, AccountWeight, AllKeys, AllAccounts, Justified, OnlyMarked, Signers, Reached,
           Visits, KeysOf, AllRoomy, Marks, MemberScope, MemberVisits, Fits, WeighedMembers, ShortBefore, Seen;
      ghost var signers, used, d := Signers(), Used(), rules.maxRecursion - depth;
      ghost var scope := Reached(rules, d, auth);
      ghost var fits := AllRoomy(rules) && Roomy(rules, auth)
        && Affordable(rules, count + Visits(rules, d, auth.accounts));
      count', e' := count, e;
      NoAccounts(rules, signers, base, d, auth.accounts);
      var keyResult, n := CheckKeys(auth);
      ReachedKeys(rules, d, auth);
      MarkedWiden(old(provided), provided, available, KeysOf(auth.keys), scope);
      JustifiedMono(rules, used, Used(), base, approved, e, e);
      if keyResult.Decided? {
        SatisfiedByKeys(rules, Used(), base, e, auth, n);
        if keyResult == Decided(false) && fits {
          assert auth.accounts == auth.accounts[..0];
          NotSatisfied(rules, signers, base, d, auth, KeyWeight(auth.keys, signers));
        }
        return keyResult.answer, count', e';
      }
      var total: nat := keyResult.weight;
      var membership, i := |auth.keys|, 0;
      WeighedStart(rules, Used(), signers, base, e, d, auth, total, fits);
      while i < |auth.accounts|
        invariant 0 <= i <= |auth.accounts| && membership <= |auth.keys| + i
        invariant depth < rules.maxRecursion ==> membership == |auth.keys| + i
        invariant rules.maxMembership > 0 ==> membership < rules.maxMembership
        invariant OnlyMarked(old(provided), provided, available, scope) && Signers() == signers
        invariant old(approved) <= approved && e <= e' && Justified(rules, Used(), base, approved, e')
        invariant WeighedMembers(rules, Used(), signers, base, e', d, auth, i, total, fits)
        invariant auth.threshold > 0 ==> total < auth.threshold
        invariant count <= count' <= count + Visits(rules, d, auth.accounts[..i])
        invariant rules.maxAccountAuths > 0 ==> count' <= count || count' <= rules.maxAccountAuths
      {
        var (a, w) := auth.accounts[i];
        ghost var e1, provided1, total1 := e', provided, total;
        VisitsNext(rules, d, auth.accounts, i);
        ReachedMember(rules, d, auth, i);
        var verdict;
        verdict, count', e' := CheckAccount(a, depth, count', base, e');
        MarkedTrans(old(provided), provided1, provided, available, scope, MemberScope(rules, d, a));
        if verdict == OutOfBudget {
          return false, count', e';
        }
        if verdict == Counts {
          total := AddWeight(total, w);
        }
        WeighedMember(rules, Marks(provided1), Used(), signers, base, e1, e', d, auth, i, total1, total, fits,
                      verdict == Counts);
        i := i + 1;
        if verdict == Skipped {
          continue;
        }
        if verdict == Counts && total >= auth.threshold {
          WeighedSatisfied(rules, Used(), signers, base, e', d, auth, i, total, fits);
          return true, count', e';
        }
        membership := membership + 1;
        if rules.maxMembership > 0 && membership >= rules.maxMembership {
          WeighedSatisfied(rules, Used(), signers, base, e', d, auth, i, total, fits);
          return false, count', e';
        }
      }
      assert auth.accounts[..i] == auth.accounts;
      WeighedSatisfied(rules, Used(), signers, base, e', d, auth, i, total, fits);
      ok := total >= auth.threshold;
    }

    /** One account member: approved already, too deep, too many, or checked and remembered. */
    method CheckAccount(a: Name, depth: nat, count: nat, ghost base: set<Name>, ghost e: nat)
      returns (verdict: Verdict, count': nat, ghost e': nat)
      requires depth <= rules.maxRecursion
      requires Justified(rules, Used(), base, approved, e)
      modifies this
      ensures OnlyMarked(old(provided), provided, available, MemberScope(rules, rules.maxRecursion - depth, a))
      ensures Signers() == old(Signers()) && old(approved) <= approved
      ensures e <= e' && Justified(rules, Used(), base, approved, e')
      ensures verdict == Counts ==> a in approved
      ensures verdict == Counts ==> Good(rules, Used(), base, e', a)
      ensures a in old(approved) ==> verdict == Counts && provided == old(provided) && count' == count
      ensures verdict == Skipped <==> a !in old(approved) && depth == rules.maxRecursion
      ensures verdict == OutOfBudget <==>
        a !in old(approved) && depth < rules.maxRecursion && 0 < rules.maxAccountAuths <= count
      ensures a !in old(approved) && verdict in {Counts, Fails} ==> count < count'
      ensures verdict == OutOfBudget ==> !Affordable(rules, count + MemberVisits(rules, rules.maxRecursion - depth, a))
      ensures AllRoomy(rules) && Affordable(rules, count + MemberVisits(rules, rules.maxRecursion - depth, a))
              && verdict != Counts ==>
        !Good(rules, Signers(), base, rules.maxRecursion - depth, a)
      ensures count <= count' <= count + MemberVisits(rules, rules.maxRecursion - depth, a)
      ensures rules.maxAccountAuths > 0 ==> count' <= count || count' <= rules.maxAccountAuths
      decreases rules.maxRecursion - depth, 0
    {
      hide Good, Satisfied, Justified, OnlyMarked, Signers, Reached, Visits, Marks, Roomy;
      ghost var signers, used, d := Signers(), Used(), rules.maxRecursion - depth;
      MarkedNone(provided, available, MemberScope(rules, d, a));
      count', e' := count, e;
      if a in approved {
        ApprovedGood(rules, used, base, approved, e, a);
        return Counts, count', e';
      }
      NotApprovedNotBase(rules, used, base, approved, e, a);
      if depth == rules.maxRecursion {
        NotGoodAtZero(rules, signers, base, a);
        return Skipped, count', e';
      }
      if rules.maxAccountAuths > 0 && count >= rules.maxAccountAuths {
        return OutOfBudget, count', e';
      }
      var ok;
      ok, count', e' := CheckAuthorityImpl(rules.active(a), depth + 1, count + 1, base, e);
      GoodUnless(rules, signers, base, d, a);
      JustifiedMono(rules, Used(), Used(), base, approved, e', e' + 1);
      if ok {
        GoodAfter(rules, Used(), base, e', a);
        JustifiedInsert(rules, Used(), base, approved, e' + 1, a);
        approved := approved + {a};
        return Counts, count', e' + 1;
      }
      return Fails, count', e' + 1;
    }

    /**
     Checks the authority of a named account, unless it has been approved already. `base` are the
     accounts that were approved before the first check, and what has been approved since is
     justified by them.
     */
    method CheckAuthority(id: Name, ghost base: set<Name>, ghost e: nat) returns (ok: bool, ghost e': nat)
      requires Justified(rules, Used(), base, approved, e)
      modifies this
      ensures OnlyMarked(old(provided), provided, available, Reached(rules, rules.maxRecursion, rules.active(id)))
      ensures Signers() == old(Signers()) && old(approved) <= approved
      ensures e <= e' && Justified(rules, Used(), base, approved, e')
      ensures ok ==> id in base || Derivable(rules, Used(), base, rules.active(id))
      ensures AllRoomy(rules) && Within(rules, Signers(), base, rules.active(id)) ==> ok
      ensures id in old(approved) ==> ok
    {
      hide Good, Satisfied, Justified, OnlyMarked, Reached, Visits, Roomy;
      e' := e;
      if id in approved {
        MarkedNone(provided, available, Reached(rules, rules.maxRecursion, rules.active(id)));
        AllDerivable(rules, Used(), base, approved, e);
        return true, e;
      }
      var count;
      ok, count, e' := CheckAuthorityImpl(rules.active(id), 0, 1, base, e);
    }

    /** Checks an authority that is given as such. */
    method CheckGiven(auth: Authority, ghost base: set<Name>, ghost e: nat) returns (ok: bool, ghost e': nat)
      requires Justified(rules, Used(), base, approved, e)
      modifies this
      ensures OnlyMarked(old(provided), provided, available, Reached(rules, rules.maxRecursion, auth))
      ensures Signers() == old(Signers()) && old(approved) <= approved
      ensures e <= e' && Justified(rules, Used(), base, approved, e')
      ensures ok ==> Derivable(rules, Used(), base, auth)
      ensures AllRoomy(rules) && Within(rules, Signers(), base, auth) ==> ok
    {
      hide Good, Satisfied, Justified, OnlyMarked, Reached, Visits, Roomy;
      var count;
      ok, count, e' := CheckAuthorityImpl(auth, 0, 0, base, e);
    }

    /** Checks that an account acts with its own authority, or else with one of the others, in turn. */
    method CheckActs(id: Name, others: seq<Authority>, ghost base: set<Name>, ghost e: nat, ghost scope: set<Key>)
      returns (ok: bool, ghost e': nat)
      requires Justified(rules, Used(), base, approved, e)
      requires forall x | x in [rules.active(id)] + others :: Reached(rules, rules.maxRecursion, x) <= scope
      modifies this
      ensures OnlyMarked(old(provided), provided, available, scope)
      ensures Signers() == old(Signers()) && old(approved) <= approved
      ensures e <= e' && Justified(rules, Used(), base, approved, e')
      ensures ok ==> Acts(rules, Used(), base, others, id)
      ensures AllRoomy(rules) && ActsWithin(rules, Signers(), base, others, id) ==> ok
    {
      hide Good, Satisfied, OnlyMarked, Derivable, Reached, AllRoomy, Within, Marks;
      BaseApproved(rules, Used(), base, approved, e);
      hide Justified;
      ok, e' := CheckAuthority(id, base, e);
      MarkedWiden(old(provided), provided, available, Reached(rules, rules.maxRecursion, rules.active(id)), scope);
      var i := 0;
      while !ok && i < |others|
        invariant 0 <= i <= |others| && OnlyMarked(old(provided), provided, available, scope)
        invariant Signers() == old(Signers())
        invariant old(approved) <= approved && e <= e' && Justified(rules, Used(), base, approved, e')
        invariant ok ==> Acts(rules, Used(), base, others, id)
        invariant AllRoomy(rules) && !ok ==>
          id !in base && !Within(rules, Signers(), base, rules.active(id))
          && forall k | 0 <= k < i :: !Within(rules, Signers(), base, others[k])
        decreases |others| - i, !ok
      {
        ghost var provided1 := provided;
        ok, e' := CheckGiven(others[i], base, e');
        MarkedTrans(old(provided), provided1, provided, available, scope,
                    Reached(rules, rules.maxRecursion, others[i]));
        i := i + 1;
      }
    }

    /** Checks several accounts, each with the other authorities given for it. */
    method CheckAllAct(ids: seq<Name>, others: Name -> seq<Authority>, ghost base: set<Name>, ghost e: nat,
        ghost scope: set<Key>)
      returns (ok: bool, ghost e': nat)
      requires Justified(rules, Used(), base, approved, e)
      requires forall a, x | a in ids && x in [rules.active(a)] + others(a) ::
        Reached(rules, rules.maxRecursion, x) <= scope
      modifies this
      ensures OnlyMarked(old(provided), provided, available, scope)
      ensures Signers() == old(Signers()) && old(approved) <= approved
      ensures Justified(rules, Used(), base, approved, e')
      ensures ok ==> forall a | a in ids :: Acts(rules, Used(), base, others(a), a)
      ensures AllRoomy(rules) && (forall a | a in ids :: ActsWithin(rules, Signers(), base, others(a), a)) ==> ok
    {
      hide Good, Satisfied, Justified, OnlyMarked, Derivable, Acts, ActsWithin, AllRoomy, Reached, Marks;
      MarkedNone(provided, available, scope);
      e' := e;
      var i := 0;
      while i < |ids|
        invariant 0 <= i <= |ids| && OnlyMarked(old(provided), provided, available, scope)
        invariant Signers() == old(Signers())
        invariant old(approved) <= approved && Justified(rules, Used(), base, approved, e')
        invariant forall k | 0 <= k < i :: Acts(rules, Used(), base, others(ids[k]), ids[k])
      {
        ghost var provided1, used1 := provided, Used();
        assert ids[i] in ids;
        ok, e' := CheckActs(ids[i], others(ids[i]), base, e', scope);
        MarkedTrans(old(provided), provided1, provided, available, scope, scope);
        if !ok {
          return;
        }
        forall k | 0 <= k < i ensures Acts(rules, Used(), base, others(ids[k]), ids[k]) {
          ActsMono(rules, used1, Used(), base, others(ids[k]), ids[k]);
        }
        i := i + 1;
      }
      ok := true;
    }

    /** Checks several given authorities. */
    method CheckAllGiven(auths: seq<Authority>, ghost base: set<Name>, ghost e: nat, ghost scope: set<Key>)
      returns (ok: bool, ghost e': nat)
      requires Justified(rules, Used(), base, approved, e)
      requires forall x | x in auths :: Reached(rules, rules.maxRecursion, x) <= scope
      modifies this
      ensures OnlyMarked(old(provided), provided, available, scope)
      ensures Signers() == old(Signers()) && old(approved) <= approved
      ensures Justified(rules, Used(), base, approved, e')
      ensures ok ==> forall x | x in auths :: Derivable(rules, Used(), base, x)
      ensures AllRoomy(rules) && (forall x | x in auths :: Within(rules, Signers(), base, x)) ==> ok
    {
      hide Good, Satisfied, Justified, OnlyMarked, Derivable, AllRoomy, Reached, Marks, Within;
      MarkedNone(provided, available, scope);
      e' := e;
      var i := 0;
      while i < |auths|
        invariant 0 <= i <= |auths| && OnlyMarked(old(provided), provided, available, scope)
        invariant Signers() == old(Signers())
        invariant old(approved) <= approved && Justified(rules, Used(), base, approved, e')
        invariant forall k | 0 <= k < i :: Derivable(rules, Used(), base, auths[k])
      {
        ghost var provided1, used1 := provided, Used();
        assert auths[i] in auths;
        ok, e' := CheckGiven(auths[i], base, e');
        MarkedTrans(old(provided), provided1, provided, available, scope, Reached(rules, rules.maxRecursion, auths[i]));
        if !ok {
          return;
        }
        forall k | 0 <= k < i ensures Derivable(rules, Used(), base, auths[k]) {
          DerivableMono(rules, used1, Used(), base, auths[k]);
        }
        i := i + 1;
      }
      ok := true;
    }
  }

  // ---- The authorities of a transaction ------------------------------------------------------

  /** The authorities a transaction needs: accounts by kind of authority, and authorities given as such. */
  datatype Required = Required(posting: seq<Name>, active: seq<Name>, owner: seq<Name>, other: seq<Authority>)

  /** The three authorities of every account. */
  datatype Keys = Keys(posting: Name -> Authority, active: Name -> Authority, owner: Name -> Authority)

  datatype Limits = Limits(maxRecursion: nat, maxMembership: nat, maxAccountAuths: nat)

  /** Accounts whose authority was checked elsewhere. */
  datatype Approvals = Approvals(posting: set<Name>, active: set<Name>, owner: set<Name>)

  datatype Verification = Verified | Mixed | Missing | Irrelevant

  ghost function RulesFor(auth: Name -> Authority, l: Limits): Rules {
    Rules(auth, l.maxRecursion, l.maxMembership, l.maxAccountAuths)
  }

  /** What a verified transaction has: a derivation, from its signers and the approved accounts, for all it needs. */
  ghost predicate Authorized(req: Required, sigs: set<Key>, g: Keys, l: Limits, ap: Approvals) {
    if req.posting != [] then
      var r, base := RulesFor(g.posting, l), {"temp"} + ap.posting;
      && req.active == [] && req.owner == [] && req.other == []
      && forall a | a in req.posting :: Acts(r, sigs, base, [g.active(a), g.owner(a)], a)
    else
      var r, base := RulesFor(g.active, l), {"temp"} + ap.active + ap.owner;
      && (forall x | x in req.other :: Derivable(r, sigs, base, x))
      && (forall a | a in req.active :: Acts(r, sigs, base, [g.owner(a)], a))
      && (forall a | a in req.owner :: a in ap.owner || Derivable(r, sigs, base, g.owner(a)))
  }

  /** The authorities the check of a transaction may start from. */
  ghost function Roots(req: Required, g: Keys, ap: Approvals): set<Authority> {
    if req.posting != [] then
      (set a | a in req.posting :: g.posting(a)) + (set a | a in req.posting :: g.active(a))
      + set a | a in req.posting :: g.owner(a)
    else
      (set x | x in req.other) + (set a | a in req.active :: g.active(a)) + (set a | a in req.active :: g.owner(a))
      + set a | a in req.owner && a !in ap.owner :: g.owner(a)
  }

  /** The keys of these authorities and of those they lead to within the recursion depth. */
  ghost function Scope(r: Rules, roots: set<Authority>): set<Key> {
    set x, k | x in roots && k in Reached(r, r.maxRecursion, x) :: k
  }

  /** Every one of the keys is listed in a required authority or one it leads to within the recursion depth. */
  ghost predicate Relevant(keys: set<Key>, req: Required, g: Keys, l: Limits, ap: Approvals) {
    keys <= Scope(RulesFor(if req.posting != [] then g.posting else g.active, l), Roots(req, g, ap))
  }

  /** Every account remembered as approved has a derivation of its own. */
  ghost predicate Remembered(approved: set<Name>, req: Required, sigs: set<Key>, g: Keys, l: Limits, ap: Approvals) {
    var r := RulesFor(if req.posting != [] then g.posting else g.active, l);
    var base := {"temp"} + if req.posting != [] then ap.posting else ap.active + ap.owner;
    forall a | a in approved :: a in base || Derivable(r, sigs, base, r.active(a))
  }

  /** All a transaction needs has a derivation that the depth of the check is enough for. */
  ghost predicate AuthorizedWithin(req: Required, sigs: set<Key>, g: Keys, l: Limits, ap: Approvals) {
    if req.posting != [] then
      var r, base := RulesFor(g.posting, l), {"temp"} + ap.posting;
      && req.active == [] && req.owner == [] && req.other == [] && AllRoomy(r)
      && forall a | a in req.posting :: ActsWithin(r, sigs, base, [g.active(a), g.owner(a)], a)
    else
      var r, base := RulesFor(g.active, l), {"temp"} + ap.active + ap.owner;
      && AllRoomy(r)
      && (forall x | x in req.other :: Within(r, sigs, base, x))
      && (forall a | a in req.active :: ActsWithin(r, sigs, base, [g.owner(a)], a))
      && (forall a | a in req.owner :: a in ap.owner || Within(r, sigs, base, g.owner(a)))
  }

  /**
   The authority check of a transaction. Each check remembers what the ones before it approved; still a
   verified transaction is authorized from its signers and the approved accounts alone, and every signer
   is listed in an authority that was required or led to. One refused for a signature nobody needed is
   authorized by the signatures that were used, and one that is authorized within the limits of the check
   is refused for nothing else: if none of its signatures can be spared, it is verified.
   */
  method VerifyAuthority(req: Required, sigs: set<Key>, g: Keys, l: Limits, ap: Approvals)
    returns (v: Verification, used: set<Key>, approved: set<Name>)
    ensures v == Verified ==> Authorized(req, sigs, g, l, ap) && Relevant(sigs, req, g, l, ap)
    ensures v == Verified ==> used == sigs
    ensures v == Irrelevant ==> used < sigs && Authorized(req, used, g, l, ap)
    ensures Remembered(approved, req, used, g, l, ap)
    ensures v == Mixed <==> req.posting != [] && (req.active != [] || req.owner != [] || req.other != [])
    ensures AuthorizedWithin(req, sigs, g, l, ap) ==> v == Verified || v == Irrelevant
    ensures AuthorizedWithin(req, sigs, g, l, ap) && (forall s | s < sigs :: !Authorized(req, s, g, l, ap)) ==>
      v == Verified
  {
    hide Good, Satisfied, Justified, Acts, ActsWithin, Within, Derivable, AllRoomy, Reached;
    if req.posting != [] {
      if req.active != [] || req.owner != [] || req.other != [] {
        return Mixed, {}, {};
      }
      v, used, approved := VerifyPosting(req, sigs, g, l, ap);
    } else {
      v, used, approved := VerifyOthers(req, sigs, g, l, ap);
    }
  }

  method VerifyPosting(req: Required, sigs: set<Key>, g: Keys, l: Limits, ap: Approvals)
    returns (v: Verification, used: set<Key>, approved: set<Name>)
    requires req.posting != [] && req.active == [] && req.owner == [] && req.other == []
    ensures v in {Verified, Missing, Irrelevant}
    ensures (v == Verified ==> used == sigs) && (v == Irrelevant ==> used < sigs)
    ensures v != Missing ==> Authorized(req, used, g, l, ap)
    ensures Relevant(used, req, g, l, ap) && Remembered(approved, req, used, g, l, ap)
    ensures AuthorizedWithin(req, sigs, g, l, ap) ==> v != Missing
  {
    hide Good, Satisfied, Justified, Acts, ActsWithin, Within, Derivable, AllRoomy, OnlyMarked, Reached;
    var c := new Checker(sigs, Rules(g.posting, l.maxRecursion, l.maxMembership, l.maxAccountAuths), {}, ap.posting);
    ghost var base := c.approved;
    ghost var scope := Scope(c.rules, Roots(req, g, ap));
    assert c.Signers() == sigs && c.Used() == {};
    JustifiedStart(c.rules, {}, base);
    ghost var start := c.provided;
    var ok, e := c.CheckAllAct(req.posting, a => [g.active(a), g.owner(a)], base, 0, scope);
    StartUnmarked(start, c.provided, sigs, scope);
    AllDerivable(c.rules, c.Used(), base, c.approved, e);
    used, approved := c.Used(), c.approved;
    v := if !ok then Missing else if used == sigs then Verified else Irrelevant;
  }

  method VerifyOthers(req: Required, sigs: set<Key>, g: Keys, l: Limits, ap: Approvals)
    returns (v: Verification, used: set<Key>, approved: set<Name>)
    requires req.posting == []
    ensures v in {Verified, Missing, Irrelevant}
    ensures (v == Verified ==> used == sigs) && (v == Irrelevant ==> used < sigs)
    ensures v != Missing ==> Authorized(req, used, g, l, ap)
    ensures Relevant(used, req, g, l, ap) && Remembered(approved, req, used, g, l, ap)
    ensures AuthorizedWithin(req, sigs, g, l, ap) ==> v != Missing
  {
    hide Good, Satisfied, Justified, Acts, ActsWithin, Within, Derivable, AllRoomy, OnlyMarked, Reached;
    var c := new Checker(sigs, Rules(g.active, l.maxRecursion, l.maxMembership, l.maxAccountAuths), {},
                         ap.active + ap.owner);
    ghost var base := c.approved;
    ghost var scope := Scope(c.rules, Roots(req, g, ap));
    assert c.Signers() == sigs && c.Used() == {} && base == {"temp"} + ap.active + ap.owner;
    JustifiedStart(c.rules, {}, base);
    ghost var start := c.provided;
    var ok, e := c.CheckAllGiven(req.other, base, 0, scope);
    if ok {
      ghost var provided1 := c.provided;
      ok, e := c.CheckAllAct(req.active, a => [g.owner(a)], base, e, scope);
      MarkedTrans(start, provided1, c.provided, {}, scope, scope);
      GivenMono(c.rules, Marks(provided1), c.Used(), base, req.other);
      if ok {
        ghost var provided2 := c.provided;
        var owners := OwnersOf(req.owner, g.owner, ap.owner);
        ok, e := c.CheckAllGiven(owners, base, e, scope);
        MarkedTrans(start, provided2, c.provided, {}, scope, scope);
        GivenMono(c.rules, Marks(provided2), c.Used(), base, req.other);
        AllActMono(c.rules, Marks(provided2), c.Used(), base, req.active, a => [g.owner(a)]);
      }
    }
    StartUnmarked(start, c.provided, sigs, scope);
    AllDerivable(c.rules, c.Used(), base, c.approved, e);
    used, approved := c.Used(), c.approved;
    v := if !ok then Missing else if used == sigs then Verified else Irrelevant;
  }

  /** The owner authorities of the accounts that are not approved. */
  function OwnersOf(ids: seq<Name>, owner: Name -> Authority, approved: set<Name>): (r: seq<Authority>)
    ensures forall a | a in ids :: a in approved || owner(a) in r
    ensures forall x | x in r :: exists a | a in ids :: a !in approved && x == owner(a)
  {
    if ids == [] then [] else
      assert forall a | a in ids :: a == ids[0] || a in ids[1..];
      (if ids[0] in approved then [] else [owner(ids[0])]) + OwnersOf(ids[1..], owner, approved)
  }

  // ---- Steps of the proof --------------------------------------------------------------------

  lemma SatisfiedByKeys(r: Rules, signers: set<Key>, base: set<Name>, d: nat, a: Authority, n: nat)
    requires n <= |a.keys| && (r.maxMembership > 0 ==> n <= r.maxMembership)
    ensures KeyWeight(a.keys[..n], signers) >= a.threshold ==>
      Satisfied(r, signers, base, d, a) && Satisfied(r, signers, base, d, Seen(r, a))
  {
    KeysGrow(a.keys, signers, n);
    var seen := Seen(r, a).keys;
    assert seen[..n] == a.keys[..n];
    KeysGrow(seen, signers, n);
  }

  lemma NotSatisfied(r: Rules, signers: set<Key>, base: set<Name>, d: nat, a: Authority, total: nat)
    requires total < a.threshold
    ensures total >= KeyWeight(a.keys, signers) + AccountWeight(r, signers, base, d, a.accounts) ==>
              !Satisfied(r, signers, base, d, a)
  {
  }

  /** The weight after all keys and i accounts: no more than what is derived, no less than what can be. */
  ghost predicate WeighedMembers(r: Rules, used: set<Key>, signers: set<Key>, base: set<Name>, e: nat, d: nat,
      auth: Authority, i: nat, total: nat, fits: bool)
  {
    && i <= |auth.accounts| && (fits ==> Fits(auth))
    && total <= KeyWeight(auth.keys, used) + AccountWeight(r, used, base, e, auth.accounts[..i])
    && total <= AllKeys(auth.keys) + AllAccounts(auth.accounts[..i])
    && (fits ==> total >= KeyWeight(auth.keys, signers) + AccountWeight(r, signers, base, d, auth.accounts[..i]))
  }

  lemma WeighedStart(r: Rules, used: set<Key>, signers: set<Key>, base: set<Name>, e: nat, d: nat, auth: Authority,
      total: nat, fits: bool)
    requires total <= KeyWeight(auth.keys, used) && total <= AllKeys(auth.keys)
    requires fits ==> Fits(auth) && total == KeyWeight(auth.keys, signers)
    ensures WeighedMembers(r, used, signers, base, e, d, auth, 0, total, fits)
  {
    NoAccounts(r, used, base, e, auth.accounts);
    NoAccounts(r, signers, base, d, auth.accounts);
  }

  lemma WeighedMember(r: Rules, used: set<Key>, used': set<Key>, signers: set<Key>, base: set<Name>, e: nat, e': nat,
      d: nat, auth: Authority, i: nat, total: nat, total': nat, fits: bool, counts: bool)
    requires i < |auth.accounts| && WeighedMembers(r, used, signers, base, e, d, auth, i, total, fits)
    requires used <= used' && e <= e'
    requires total' == if counts then AddWeight(total, auth.accounts[i].1) else total
    requires counts ==> Good(r, used', base, e', auth.accounts[i].0)
    requires fits && !counts ==> !Good(r, signers, base, d, auth.accounts[i].0)
    ensures WeighedMembers(r, used', signers, base, e', d, auth, i + 1, total', fits)
  {
    hide KeyWeight, AccountWeight, AllKeys, AllAccounts, Good;
    KeyWeightMono(auth.keys, used, used');
    AccountWeightMono(r, used, used', base, e, e', auth.accounts[..i]);
    AccountNext(r, used', base, e', auth.accounts, i);
    AccountNext(r, signers, base, d, auth.accounts, i);
    AccountsGrow(r, signers, base, d, auth.accounts, i + 1);
  }

  lemma WeighedSatisfied(r: Rules, used: set<Key>, signers: set<Key>, base: set<Name>, e: nat, d: nat, auth: Authority,
      i: nat, total: nat, fits: bool)
    requires WeighedMembers(r, used, signers, base, e, d, auth, i, total, fits)
    ensures total >= auth.threshold ==> Satisfied(r, used, base, e, auth)
    ensures total >= auth.threshold && (r.maxMembership > 0 ==> |auth.keys| + i <= r.maxMembership) ==>
      Satisfied(r, used, base, e, Seen(r, auth))
    ensures fits && i == |auth.accounts| && total < auth.threshold ==> !Satisfied(r, signers, base, d, auth)
  {
    AccountsGrow(r, used, base, e, auth.accounts, i);
    if i == |auth.accounts| { assert auth.accounts[..i] == auth.accounts; }
    if r.maxMembership > 0 && |auth.keys| + i <= r.maxMembership {
      var seen := Seen(r, auth).accounts;
      assert seen[..i] == auth.accounts[..i] && Seen(r, auth).keys == auth.keys;
      AccountsGrow(r, used, base, e, seen, i);
    }
  }

  /** The weight after n keys: of keys marked as used, and of all that signed if the weights fit. */
  ghost predicate WeighedKeys(auth: Authority, n: nat, total: nat, used: set<Key>, signers: set<Key>) {
    && n <= |auth.keys| && total <= KeyWeight(auth.keys[..n], used) && total <= AllKeys(auth.keys[..n])
    && (Fits(auth) ==> total == KeyWeight(auth.keys[..n], signers))
  }

  /** No signer among the first n keys but the last of them can have reached the threshold. */
  ghost predicate ShortBefore(auth: Authority, n: nat, signers: set<Key>) {
    n <= |auth.keys| && (Fits(auth) ==> forall j | 0 < j < n && auth.keys[j - 1].0 in signers ::
      KeyWeight(auth.keys[..j], signers) < auth.threshold)
  }

  /** No signer among the first n keys has reached the threshold. */
  ghost predicate StillShort(auth: Authority, n: nat, total: nat, signers: set<Key>) {
    && n <= |auth.keys| && (auth.threshold > 0 ==> total < auth.threshold)
    && (Fits(auth) ==> forall j | 0 < j <= n && auth.keys[j - 1].0 in signers ::
          KeyWeight(auth.keys[..j], signers) < auth.threshold)
  }

  lemma NoKeys(auth: Authority, used: set<Key>, signers: set<Key>)
    ensures WeighedKeys(auth, 0, 0, used, signers) && StillShort(auth, 0, 0, signers)
    ensures used == used + KeysOf(auth.keys[..0]) * signers
  {
    assert KeysOf(auth.keys[..0]) == {};
  }

  lemma MarkedNext(start: map<Key, bool>, before: map<Key, bool>, after: map<Key, bool>, available: set<Key>,
      signers: set<Key>, keys: seq<(Key, nat)>, i: nat)
    requires i < |keys| && OnlyMarked(start, before, available, KeysOf(keys)) && signers == before.Keys + available
    requires Marks(before) == Marks(start) + KeysOf(keys[..i]) * signers
    requires after == if keys[i].0 in signers then before[keys[i].0 := true] else before
    ensures OnlyMarked(start, after, available, KeysOf(keys)) && Marks(before) <= Marks(after)
    ensures keys[i].0 in signers ==> keys[i].0 in Marks(after)
    ensures Marks(after) == Marks(start) + KeysOf(keys[..i + 1]) * signers
  {
    hide KeysOf;
    KeysOfNext(keys, i);
    var k := keys[i].0;
    assert Marks(after) == Marks(before) + if k in signers then {k} else {};
  }

  lemma WeighedNext(auth: Authority, n: nat, total: nat, total': nat, used: set<Key>, used': set<Key>,
      signers: set<Key>)
    requires WeighedKeys(auth, n, total, used, signers) && n < |auth.keys| && used <= used'
    requires var (k, w) := auth.keys[n];
      if k in signers then k in used' && total' == AddWeight(total, w) else total' == total
    ensures WeighedKeys(auth, n + 1, total', used', signers)
  {
    hide KeyWeight, AllKeys, AllAccounts;
    KeyWeightMono(auth.keys[..n], used, used');
    KeyNext(auth.keys, used', n);
    KeyNext(auth.keys, signers, n);
    KeysGrow(auth.keys, signers, n + 1);
  }

  lemma ShortNext(auth: Authority, n: nat, total: nat, total': nat, used: set<Key>, signers: set<Key>)
    requires n < |auth.keys| && StillShort(auth, n, total, signers)
    requires WeighedKeys(auth, n + 1, total', used, signers)
    requires if auth.keys[n].0 in signers then total' < auth.threshold else total' == total
    ensures StillShort(auth, n + 1, total', signers)
  {
  }

  lemma ShortEnough(auth: Authority, n: nat, total: nat, signers: set<Key>)
    requires n < |auth.keys| && StillShort(auth, n, total, signers)
    ensures ShortBefore(auth, n + 1, signers)
  {
  }

  lemma WeighedEnough(auth: Authority, n: nat, total: nat, used: set<Key>, signers: set<Key>)
    requires WeighedKeys(auth, n, total, used, signers) && total >= auth.threshold
    ensures KeyWeight(auth.keys[..n], used) >= auth.threshold
  {
  }

  lemma WeighedAll(auth: Authority, n: nat, total: nat, used: set<Key>, signers: set<Key>)
    requires WeighedKeys(auth, n, total, used, signers) && StillShort(auth, n, total, signers)
    ensures ShortBefore(auth, n, signers)
    ensures n == |auth.keys| ==> total <= KeyWeight(auth.keys, used) && total <= AllKeys(auth.keys)
    ensures n == |auth.keys| && Fits(auth) ==> total == KeyWeight(auth.keys, signers)
    ensures auth.threshold > 0 ==> total < auth.threshold
  {
    if n == |auth.keys| { assert auth.keys[..n] == auth.keys; }
  }

  lemma KeysOfNext(keys: seq<(Key, nat)>, i: nat)
    requires i < |keys|
    ensures KeysOf(keys[..i + 1]) == KeysOf(keys[..i]) + {keys[i].0} && keys[i].0 in KeysOf(keys)
  {
    assert forall j | 0 <= j < i :: keys[..i + 1][j] == keys[..i][j];
  }

  lemma DerivableMono(r: Rules, signers: set<Key>, signers': set<Key>, base: set<Name>, a: Authority)
    requires signers <= signers' && Derivable(r, signers, base, a)
    ensures Derivable(r, signers', base, a)
  {
    var d: nat :| Satisfied(r, signers, base, d, a);
    SatisfiedMono(r, signers, signers', base, d, d, a);
  }

  lemma ActsMono(r: Rules, signers: set<Key>, signers': set<Key>, base: set<Name>, others: seq<Authority>, a: Name)
    requires signers <= signers' && Acts(r, signers, base, others, a)
    ensures Acts(r, signers', base, others, a)
  {
    hide Derivable;
    if a !in base {
      if Derivable(r, signers, base, r.active(a)) {
        DerivableMono(r, signers, signers', base, r.active(a));
      } else {
        var x :| x in others && Derivable(r, signers, base, x);
        DerivableMono(r, signers, signers', base, x);
      }
    }
  }

  lemma GivenMono(r: Rules, signers: set<Key>, signers': set<Key>, base: set<Name>, auths: seq<Authority>)
    requires signers <= signers' && forall x | x in auths :: Derivable(r, signers, base, x)
    ensures forall x | x in auths :: Derivable(r, signers', base, x)
  {
    hide Derivable;
    forall x | x in auths ensures Derivable(r, signers', base, x) { DerivableMono(r, signers, signers', base, x); }
  }

  lemma AllActMono(r: Rules, signers: set<Key>, signers': set<Key>, base: set<Name>, ids: seq<Name>,
      others: Name -> seq<Authority>)
    requires signers <= signers' && forall a | a in ids :: Acts(r, signers, base, others(a), a)
    ensures forall a | a in ids :: Acts(r, signers', base, others(a), a)
  {
    hide Acts;
    forall a | a in ids ensures Acts(r, signers', base, others(a), a) {
      ActsMono(r, signers, signers', base, others(a), a);
    }
  }

  /** From nothing marked, what is marked are signatures in scope. */
  lemma StartUnmarked(start: map<Key, bool>, end: map<Key, bool>, sigs: set<Key>, scope: set<Key>)
    requires start == (map k | k in sigs :: false) && OnlyMarked(start, end, {}, scope)
    ensures Marks(end) <= sigs && Marks(end) <= scope
  {
  }

  lemma NoAccounts(r: Rules, signers: set<Key>, base: set<Name>, d: nat, accounts: seq<(Name, nat)>)
    ensures AccountWeight(r, signers, base, d, accounts[..0]) == 0 && AllAccounts(accounts[..0]) == 0
    ensures Visits(r, d, accounts[..0]) == 0
  {
  }

  lemma NotApprovedNotBase(r: Rules, signers: set<Key>, base: set<Name>, approved: set<Name>, e: nat, a: Name)
    requires Justified(r, signers, base, approved, e) && a !in approved
    ensures a !in base
  {
  }

  lemma NotGoodAtZero(r: Rules, signers: set<Key>, base: set<Name>, a: Name)
    requires a !in base
    ensures !Good(r, signers, base, 0, a)
  {
  }

  lemma GoodUnless(r: Rules, signers: set<Key>, base: set<Name>, d: nat, a: Name)
    requires a !in base && d > 0
    ensures Good(r, signers, base, d, a) <==> Satisfied(r, signers, base, d - 1, r.active(a))
  {
  }

  lemma GoodAfter(r: Rules, signers: set<Key>, base: set<Name>, e: nat, a: Name)
    requires Satisfied(r, signers, base, e, r.active(a))
    ensures Good(r, signers, base, e + 1, a)
  {
  }

  lemma JustifiedInsert(r: Rules, signers: set<Key>, base: set<Name>, approved: set<Name>, e: nat, a: Name)
    requires Justified(r, signers, base, approved, e) && Good(r, signers, base, e, a)
    ensures Justified(r, signers, base, approved + {a}, e)
  {
  }

  lemma ApprovedGood(r: Rules, signers: set<Key>, base: set<Name>, approved: set<Name>, e: nat, a: Name)
    requires Justified(r, signers, base, approved, e) && a in approved
    ensures Good(r, signers, base, e, a)
  {
  }

  lemma AllDerivable(r: Rules, signers: set<Key>, base: set<Name>, approved: set<Name>, e: nat)
    requires Justified(r, signers, base, approved, e)
    ensures forall a | a in approved :: a in base || Derivable(r, signers, base, r.active(a))
  {
    forall a | a in approved ensures a in base || Derivable(r, signers, base, r.active(a)) {
      GoodDerivable(r, signers, base, e, a);
    }
  }

  lemma BaseApproved(r: Rules, signers: set<Key>, base: set<Name>, approved: set<Name>, e: nat)
    requires Justified(r, signers, base, approved, e)
    ensures base <= approved
  {
  }

  lemma GoodDerivable(r: Rules, signers: set<Key>, base: set<Name>, e: nat, a: Name)
    requires Good(r, signers, base, e, a)
    ensures a in base || Derivable(r, signers, base, r.active(a))
  {
    if a !in base {
      assert Satisfied(r, signers, base, e - 1, r.active(a));
    }
  }

  lemma JustifiedStart(r: Rules, signers: set<Key>, base: set<Name>)
    ensures Justified(r, signers, base, base, 0)
  {
  }
}
