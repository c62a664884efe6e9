/** The retention planner of the backup vault: which verified backups are kept and which are
    deleted, given the records of the vault, the attestations that load, and the three counts. */
module Retention {
  import opened Common

  datatype RetentionClass = Daily | Weekly

  datatype Record = Record(id: string, createdAt: string, classes: set<RetentionClass>,
                           receipt: string, bytes: int)

  datatype Attestation = Attestation(restoreId: string, targetIdentity: string, digest: string)

  /** The attestations that load: a backup id is absent when loading its attestation fails. */
  type Attestations = map<string, Attestation>

  datatype Policy = Policy(daily: int, weekly: int, minimumKnownGood: int) {
    predicate Valid() {
      daily >= 1 && weekly >= 1 && minimumKnownGood >= 2
    }
  }

  datatype Anchor = Anchor(id: string, receipt: string)

  datatype PlanError =
    | InvalidAnchor | InvalidCounts | UnverifiedAnchor | TooFewKnownGood | InvalidByteCount

  datatype Plan = Plan(newest: seq<Record>, knownGood: seq<Record>, digests: map<string, string>,
                       retained: set<string>, deleting: seq<Record>, deletedBytes: int)

  // ---- Identifiers -------------------------------------------------------------------------

  predicate IsAlphanumeric(c: char) {
    'A' <= c <= 'Z' || 'a' <= c <= 'z' || '0' <= c <= '9'
  }

  predicate ValidBackupId(id: string) {
    && 1 <= |id| <= 128
    && IsAlphanumeric(id[0])
    && forall i :: 1 <= i < |id| ==> IsAlphanumeric(id[i]) || id[i] in "._-"
  }

  predicate ValidSha256(s: string) {
    |s| == 64 && forall i :: 0 <= i < |s| ==> '0' <= s[i] <= '9' || 'a' <= s[i] <= 'f'
  }

  function Ids(s: seq<Record>): (ids: set<string>) {
    set r | r in s :: r.id
  }

  predicate DistinctIds(s: seq<Record>) {
    forall i, j :: 0 <= i < j < |s| ==> s[i].id != s[j].id
  }

  /** The receipt the id-keyed dictionary holds for `id`: a later record replaces an earlier one. */
  function ReceiptOf(s: seq<Record>, id: string): (receipt: Option<string>)
    ensures receipt.None? <==> id !in Ids(s)
  {
    if s == [] then None
    else if s[|s| - 1].id == id then Some(s[|s| - 1].receipt)
    else
      assert s == s[..|s| - 1] + [s[|s| - 1]];
      ReceiptOf(s[..|s| - 1], id)
  }

  /** Records of verified backups: one per backup, each with a retention class. */
  predicate Verified(s: seq<Record>) {
    DistinctIds(s) && forall i :: 0 <= i < |s| ==> s[i].classes != {}
  }

  // ---- Newest first ------------------------------------------------------------------------

  /** The sort key is (created_at, backup_id), compared as text. */
  predicate Newer(a: Record, b: Record) {
    StringLess(b.createdAt, a.createdAt) || (a.createdAt == b.createdAt && StringLess(b.id, a.id))
  }

  lemma {:induction false} NewerTotal(a: Record, b: Record)
    requires a.id != b.id
    ensures Newer(a, b) <==> !Newer(b, a)
  {
    StringLessTotal(a.createdAt, b.createdAt);
    StringLessTotal(a.id, b.id);
  }

  /** A newer record was never created earlier, and a record created later is newer. */
  lemma {:induction false} NewerNotEarlier(a: Record, b: Record)
    ensures Newer(a, b) ==> !StringLess(a.createdAt, b.createdAt)
    ensures StringLess(b.createdAt, a.createdAt) ==> Newer(a, b)
  {
    StringLessTotal(a.createdAt, b.createdAt);
  }

  lemma {:induction false} NewerTransitive(a: Record, b: Record, c: Record)
    requires Newer(a, b) && Newer(b, c)
    ensures Newer(a, c)
  {
    if StringLess(b.createdAt, a.createdAt) && StringLess(c.createdAt, b.createdAt) {
      StringLessTransitive(c.createdAt, b.createdAt, a.createdAt);
    } else if a.createdAt == b.createdAt == c.createdAt {
      StringLessTransitive(c.id, b.id, a.id);
    }
  }

  predicate NewestFirst(s: seq<Record>) {
    forall i, j :: 0 <= i < j < |s| ==> Newer(s[i], s[j])
  }

  function InsertNewest(r: Record, s: seq<Record>): (t: seq<Record>)
    ensures multiset(t) == multiset(s) + multiset{r}
  {
    if s == [] || Newer(r, s[0]) then [r] + s
    else
      assert s == [s[0]] + s[1..];
      [s[0]] + InsertNewest(r, s[1..])
  }

  function SortNewest(s: seq<Record>): (t: seq<Record>)
    ensures multiset(t) == multiset(s)
  {
    if s == [] then []
    else
      assert s == [s[0]] + s[1..];
      InsertNewest(s[0], SortNewest(s[1..]))
  }

  lemma {:induction false} MultisetMembers(s: seq<Record>, t: seq<Record>)
    requires multiset(s) == multiset(t)
    ensures forall r :: r in s <==> r in t
    ensures Ids(s) == Ids(t) && |s| == |t|
  {
    assert forall r :: r in s <==> r in multiset(s);
    assert forall r :: r in t <==> r in multiset(t);
    assert |s| == |multiset(s)|;
  }

  lemma {:induction false} InsertNewestSorts(r: Record, s: seq<Record>)
    requires NewestFirst(s) && r.id !in Ids(s)
    ensures NewestFirst(InsertNewest(r, s))
  {
    if s != [] {
      if Newer(r, s[0]) {
        forall j | 1 <= j < |s| ensures Newer(r, s[j]) {
          NewerTransitive(r, s[0], s[j]);
        }
      } else {
        NewerTotal(r, s[0]);
        InsertNewestSorts(r, s[1..]);
        var t := InsertNewest(r, s[1..]);
        MultisetMembers(t, s[1..] + [r]);
        assert forall j :: 0 <= j < |t| ==> t[j] in s[1..] + [r];
      }
    }
  }

  lemma {:induction false} SortNewestSorts(s: seq<Record>)
    requires DistinctIds(s)
    ensures NewestFirst(SortNewest(s))
  {
    if s != [] {
      SortNewestSorts(s[1..]);
      MultisetMembers(SortNewest(s[1..]), s[1..]);
      InsertNewestSorts(s[0], SortNewest(s[1..]));
    }
  }

  lemma {:induction false} SameHead(s: seq<Record>, t: seq<Record>)
    requires NewestFirst(s) && NewestFirst(t) && s != [] && t != [] && s[0] in t && t[0] in s
    ensures s[0] == t[0]
  {
    StringLessTotal(s[0].createdAt, t[0].createdAt);
    StringLessTotal(s[0].id, t[0].id);
  }

  /** A newest-first arrangement of a given set of records is unique. */
  lemma {:induction false} SameFirst(s: seq<Record>, t: seq<Record>)
    requires NewestFirst(s) && NewestFirst(t) && multiset(s) == multiset(t) && s != []
    ensures t != [] && s[0] == t[0]
  {
    MultisetMembers(s, t);
    assert s[0] in t && t[0] in s;
    SameHead(s, t);
  }

  lemma {:induction false} SameTails(s: seq<Record>, t: seq<Record>)
    requires s != [] && t != [] && s[0] == t[0] && multiset(s) == multiset(t)
    ensures multiset(s[1..]) == multiset(t[1..])
  {
    assert s == [s[0]] + s[1..] && t == [s[0]] + t[1..];
    assert multiset(s[1..]) == multiset(s) - multiset{s[0]} && multiset(t[1..]) == multiset(t) - multiset{s[0]};
  }

  lemma {:induction false} NewestFirstTail(s: seq<Record>)
    requires NewestFirst(s) && s != []
    ensures NewestFirst(s[1..])
  {
  }

  lemma {:induction false} NewestFirstUnique(s: seq<Record>, t: seq<Record>)
    requires NewestFirst(s) && NewestFirst(t) && multiset(s) == multiset(t)
    ensures s == t
  {
    if s == [] {
      MultisetMembers(s, t);
    } else {
      SameFirst(s, t);
      SameTails(s, t);
      NewestFirstTail(s);
      NewestFirstTail(t);
      NewestFirstUnique(s[1..], t[1..]);
      assert s == [s[0]] + s[1..] && t == [t[0]] + t[1..];
    }
  }

  // ---- Selections --------------------------------------------------------------------------

  function Keep(s: seq<Record>, ids: set<string>): seq<Record> {
    if s == [] then []
    else if s[0].id in ids then [s[0]] + Keep(s[1..], ids)
    else Keep(s[1..], ids)
  }

  lemma {:induction false} KeepMembers(s: seq<Record>, ids: set<string>)
    ensures forall r :: r in Keep(s, ids) <==> r in s && r.id in ids
  {
    if s != [] {
      KeepMembers(s[1..], ids);
    }
  }

  function Without(s: seq<Record>, ids: set<string>): seq<Record> {
    if s == [] then []
    else if s[0].id !in ids then [s[0]] + Without(s[1..], ids)
    else Without(s[1..], ids)
  }

  lemma {:induction false} WithoutMembers(s: seq<Record>, ids: set<string>)
    ensures forall r :: r in Without(s, ids) <==> r in s && r.id !in ids
  {
    if s != [] {
      WithoutMembers(s[1..], ids);
    }
  }

  function OfClass(s: seq<Record>, c: RetentionClass): seq<Record> {
    if s == [] then []
    else if c in s[0].classes then [s[0]] + OfClass(s[1..], c)
    else OfClass(s[1..], c)
  }

  lemma {:induction false} OfClassMembers(s: seq<Record>, c: RetentionClass)
    ensures forall r :: r in OfClass(s, c) <==> r in s && c in r.classes
  {
    if s != [] {
      OfClassMembers(s[1..], c);
    }
  }

  /** A record may be selected when its attestation loads and repeats no selected restore or target. */
  predicate Selectable(r: Record, att: Attestations, restores: set<string>, targets: set<string>) {
    && r.id in att
    && att[r.id].restoreId !in restores
    && att[r.id].targetIdentity !in targets
  }

  predicate Repeats(att: Attestations, a: Record, b: Record)
    requires a.id in att && b.id in att
  {
    || att[a.id].restoreId == att[b.id].restoreId
    || att[a.id].targetIdentity == att[b.id].targetIdentity
  }

  function KnownGood(s: seq<Record>, att: Attestations, restores: set<string>, targets: set<string>)
    : seq<Record>
  {
    if s == [] then []
    else if Selectable(s[0], att, restores, targets) then
      [s[0]] + KnownGood(s[1..], att, restores + {att[s[0].id].restoreId},
                         targets + {att[s[0].id].targetIdentity})
    else KnownGood(s[1..], att, restores, targets)
  }

  lemma {:induction false} KnownGoodMembers(s: seq<Record>, att: Attestations, restores: set<string>,
                                            targets: set<string>)
    ensures forall r :: r in KnownGood(s, att, restores, targets) ==>
                          r in s && Selectable(r, att, restores, targets)
  {
    if s != [] {
      KnownGoodMembers(s[1..], att, restores, targets);
      if Selectable(s[0], att, restores, targets) {
        KnownGoodMembers(s[1..], att, restores + {att[s[0].id].restoreId}, targets + {att[s[0].id].targetIdentity});
      }
    }
  }

  function SumBytes(s: seq<Record>): int {
    if s == [] then 0 else SumBytes(s[..|s| - 1]) + s[|s| - 1].bytes
  }

  // ---- The plan ----------------------------------------------------------------------------

  predicate ValidAnchor(anchor: Anchor) {
    ValidBackupId(anchor.id) && ValidSha256(anchor.receipt)
  }

  predicate VerifiedAnchor(records: seq<Record>, anchor: Anchor) {
    ReceiptOf(records, anchor.id) == Some(anchor.receipt)
  }

  function FirstOfClass(newest: seq<Record>, c: RetentionClass, n: nat): seq<Record> {
    Take(OfClass(newest, c), n)
  }

  function Retained(newest: seq<Record>, good: seq<Record>, policy: Policy): set<string>
    requires policy.Valid()
  {
    Ids(good) + Ids(FirstOfClass(newest, Daily, policy.daily)) + Ids(FirstOfClass(newest, Weekly, policy.weekly))
  }

  function Digests(good: seq<Record>, att: Attestations): map<string, string> {
    map id | id in Ids(good) && id in att :: att[id].digest
  }

  function PlanOf(records: seq<Record>, att: Attestations, anchor: Anchor, policy: Policy)
    : (r: Result<Plan, PlanError>)
  {
    if !ValidAnchor(anchor) then Err(InvalidAnchor)
    else if !policy.Valid() then Err(InvalidCounts)
    else if !VerifiedAnchor(records, anchor) then Err(UnverifiedAnchor)
    else
      var newest := SortNewest(records);
      var good := KnownGood(newest, att, {}, {});
      if |good| < policy.minimumKnownGood then Err(TooFewKnownGood)
      else
        var kept := good[..policy.minimumKnownGood];
        var retained := Retained(newest, kept, policy);
        var deleting := Without(newest, retained);
        if exists r :: r in deleting && r.bytes < 0 then Err(InvalidByteCount)
        else Ok(Plan(newest, kept, Digests(kept, att), retained, deleting, SumBytes(deleting)))
  }

  // ---- The planner as written: one pass per selection ----------------------------------------

  lemma {:induction false} KnownGoodStep(s: seq<Record>, i: nat, att: Attestations,
                                         restores: set<string>, targets: set<string>)
    requires i < |s|
    ensures KnownGood(s[i..], att, restores, targets) ==
            if Selectable(s[i], att, restores, targets)
            then [s[i]] + KnownGood(s[i + 1..], att, restores + {att[s[i].id].restoreId},
                                    targets + {att[s[i].id].targetIdentity})
            else KnownGood(s[i + 1..], att, restores, targets)
  {
  }

  method SelectKnownGood(newest: seq<Record>, att: Attestations) returns (good: seq<Record>)
    ensures good == KnownGood(newest, att, {}, {})
  {
    good := [];
    var restores, targets := {}, {};
    for i := 0 to |newest|
      invariant KnownGood(newest, att, {}, {}) == good + KnownGood(newest[i..], att, restores, targets)
    {
      KnownGoodStep(newest, i, att, restores, targets);
      var record := newest[i];
      if record.id in att {
        var attestation := att[record.id];
        if attestation.restoreId !in restores && attestation.targetIdentity !in targets {
          restores := restores + {attestation.restoreId};
          targets := targets + {attestation.targetIdentity};
          good := good + [record];
        }
      }
    }
  }

  method SumDeleted(deleting: seq<Record>) returns (total: Option<int>)
    ensures total.None? <==> exists r :: r in deleting && r.bytes < 0
    ensures total.Some? ==> total.value == SumBytes(deleting)
  {
    var sum := 0;
    for i := 0 to |deleting|
      invariant sum == SumBytes(deleting[..i])
      invariant forall j :: 0 <= j < i ==> deleting[j].bytes >= 0
    {
      if deleting[i].bytes < 0 {
        return None;
      }
      assert deleting[..i + 1][..i] == deleting[..i];
      sum := sum + deleting[i].bytes;
    }
    assert deleting[..|deleting|] == deleting;
    return Some(sum);
  }

  method PlanRemoteRetention(records: seq<Record>, att: Attestations, anchor: Anchor, policy: Policy)
    returns (r: Result<Plan, PlanError>)
    ensures r == PlanOf(records, att, anchor, policy)
  {
    if !ValidAnchor(anchor) {
      return Err(InvalidAnchor);
    }
    if policy.daily < 1 || policy.weekly < 1 || policy.minimumKnownGood < 2 {
      return Err(InvalidCounts);
    }
    if !VerifiedAnchor(records, anchor) {
      return Err(UnverifiedAnchor);
    }
    var newest := SortNewest(records);
    var good := SelectKnownGood(newest, att);
    if |good| < policy.minimumKnownGood {
      return Err(TooFewKnownGood);
    }
    var kept := good[..policy.minimumKnownGood];
    var retained := Ids(kept) + Ids(Take(OfClass(newest, Daily), policy.daily));
    retained := retained + Ids(Take(OfClass(newest, Weekly), policy.weekly));
    var deleting := Without(newest, retained);
    var total := SumDeleted(deleting);
    if total.None? {
      return Err(InvalidByteCount);
    }
    return Ok(Plan(newest, kept, Digests(kept, att), retained, deleting, total.value));
  }

  // ---- Safety ------------------------------------------------------------------------------

  /** Selected attestations repeat neither a restore id nor a target identity. */
  predicate Independent(s: seq<Record>, att: Attestations) {
    && (forall i :: 0 <= i < |s| ==> s[i].id in att)
    && forall i, j :: 0 <= i < j < |s| ==>
         && att[s[i].id].restoreId != att[s[j].id].restoreId
         && att[s[i].id].targetIdentity != att[s[j].id].targetIdentity
  }

  lemma {:induction false} KnownGoodIndependent(s: seq<Record>, att: Attestations,
                                                restores: set<string>, targets: set<string>)
    ensures Independent(KnownGood(s, att, restores, targets), att)
  {
    if s != [] {
      if Selectable(s[0], att, restores, targets) {
        var restores', targets' := restores + {att[s[0].id].restoreId}, targets + {att[s[0].id].targetIdentity};
        KnownGoodIndependent(s[1..], att, restores', targets');
        var rest := KnownGood(s[1..], att, restores', targets');
        KnownGoodMembers(s[1..], att, restores', targets');
        assert forall j :: 0 <= j < |rest| ==> rest[j] in rest && Selectable(rest[j], att, restores', targets');
      } else {
        KnownGoodIndependent(s[1..], att, restores, targets);
      }
    }
  }

  /** Greedy is newest-first: an attested record is passed over only for a newer selected one that
      it repeats (or for something seen before this list began). */
  lemma {:induction false} KnownGoodPassedOver(s: seq<Record>, att: Attestations,
                                               restores: set<string>, targets: set<string>, r: Record)
    requires NewestFirst(s) && r in s && r.id in att && r !in KnownGood(s, att, restores, targets)
    requires forall g :: g in KnownGood(s, att, restores, targets) ==> g.id in att
    ensures !Selectable(r, att, restores, targets) ||
            exists g :: g in KnownGood(s, att, restores, targets) && Newer(g, r) && Repeats(att, g, r)
  {
    if r != s[0] {
      assert r in s[1..];
      var h := s[0];
      if Selectable(h, att, restores, targets) {
        KnownGoodPassedOver(s[1..], att, restores + {att[h.id].restoreId},
                            targets + {att[h.id].targetIdentity}, r);
        var rest := KnownGood(s[1..], att, restores + {att[h.id].restoreId},
                              targets + {att[h.id].targetIdentity});
        var all := KnownGood(s, att, restores, targets);
        assert all == [h] + rest;
        KnownGoodMembers(s, att, restores, targets);
        assert h in all && Newer(h, r);
        assert forall g :: g in rest ==> g in all;
      } else {
        KnownGoodPassedOver(s[1..], att, restores, targets, r);
      }
    }
  }

  /** Every record of a class that is not among the first `n` of that class comes after `n` others. */
  lemma {:induction false} QuotaFilled(s: seq<Record>, c: RetentionClass, n: nat, r: Record)
    requires NewestFirst(s) && r in s && c in r.classes && r !in Take(OfClass(s, c), n)
    ensures |Take(OfClass(s, c), n)| == n
    ensures forall t :: t in Take(OfClass(s, c), n) ==> Newer(t, r)
    ensures NewestFirst(Take(OfClass(s, c), n))
  {
    OfClassNewestFirst(s, c);
    OfClassMembers(s, c);
    var all := OfClass(s, c);
    var k :| 0 <= k < |all| && all[k] == r;
    Taken(all, n, k);
  }

  lemma {:induction false} Taken<T>(s: seq<T>, n: nat, k: nat)
    requires k < |s|
    ensures k < n ==> s[k] in Take(s, n)
  {
  }

  lemma {:induction false} OfClassNewestFirst(s: seq<Record>, c: RetentionClass)
    requires NewestFirst(s)
    ensures NewestFirst(OfClass(s, c))
  {
    if s != [] {
      OfClassNewestFirst(s[1..], c);
      OfClassMembers(s[1..], c);
      var rest := OfClass(s[1..], c);
      assert forall j :: 0 <= j < |rest| ==> rest[j] in s[1..];
    }
  }

  lemma {:induction false} IdsSize(s: seq<Record>)
    ensures |Ids(s)| <= |s|
  {
    if s != [] {
      IdsSize(s[1..]);
      assert Ids(s) == Ids(s[1..]) + {s[0].id};
    }
  }

  lemma {:induction false} IdsExactSize(s: seq<Record>)
    requires DistinctIds(s)
    ensures |Ids(s)| == |s|
  {
    if s != [] {
      IdsExactSize(s[1..]);
      assert s[0].id !in Ids(s[1..]);
      assert Ids(s) == Ids(s[1..]) + {s[0].id};
    }
  }

  /** What deleting `r` is allowed to rely on: `n` newer kept records of the class. */
  ghost predicate QuotaKept(plan: Plan, c: RetentionClass, n: nat, r: Record) {
    exists kept: seq<Record> ::
      && |kept| == n && NewestFirst(kept)
      && forall t :: t in kept ==> t in plan.newest && t.id in plan.retained && c in t.classes && Newer(t, r)
  }

  /** The shape of a returned plan, in terms of the selections it is built from. */
  ghost predicate IsPlan(records: seq<Record>, att: Attestations, policy: Policy, plan: Plan) {
    && policy.Valid()
    && plan.newest == SortNewest(records)
    && policy.minimumKnownGood <= |KnownGood(plan.newest, att, {}, {})|
    && plan.knownGood == KnownGood(plan.newest, att, {}, {})[..policy.minimumKnownGood]
    && plan.retained == Retained(plan.newest, plan.knownGood, policy)
    && plan.deleting == Without(plan.newest, plan.retained)
  }

  lemma {:induction false} PlanShape(records: seq<Record>, att: Attestations, anchor: Anchor, policy: Policy,
                                     plan: Plan)
    requires PlanOf(records, att, anchor, policy) == Ok(plan)
    ensures IsPlan(records, att, policy, plan)
    ensures forall r :: r in plan.knownGood ==> r in plan.newest && r.id in att
    ensures plan.digests == Digests(plan.knownGood, att)
    ensures plan.deletedBytes == SumBytes(plan.deleting)
    ensures forall r :: r in plan.deleting ==> 0 <= r.bytes
  {
    var good := KnownGood(plan.newest, att, {}, {});
    KnownGoodMembers(plan.newest, att, {}, {});
    assert forall r :: r in plan.knownGood ==> r in good;
  }

  lemma {:induction false} ClassQuota(newest: seq<Record>, retained: set<string>, c: RetentionClass, n: nat, r: Record)
    requires NewestFirst(newest) && r in newest && r.id !in retained && c in r.classes
    requires Ids(Take(OfClass(newest, c), n)) <= retained
    ensures |Take(OfClass(newest, c), n)| == n && NewestFirst(Take(OfClass(newest, c), n))
    ensures forall t :: t in Take(OfClass(newest, c), n) ==>
              t in newest && t.id in retained && c in t.classes && Newer(t, r)
  {
    var kept := Take(OfClass(newest, c), n);
    OfClassMembers(newest, c);
    assert forall t :: t in kept ==> t in OfClass(newest, c) && t.id in Ids(kept);
    QuotaFilled(newest, c, n, r);
  }

  lemma {:induction false} PlanQuota(plan: Plan, policy: Policy, r: Record)
    requires policy.Valid() && NewestFirst(plan.newest)
    requires plan.retained == Retained(plan.newest, plan.knownGood, policy)
    requires r in plan.newest && r.id !in plan.retained
    ensures Daily in r.classes ==> QuotaKept(plan, Daily, policy.daily, r)
    ensures Weekly in r.classes ==> QuotaKept(plan, Weekly, policy.weekly, r)
  {
    if Daily in r.classes {
      ClassQuota(plan.newest, plan.retained, Daily, policy.daily, r);
    }
    if Weekly in r.classes {
      ClassQuota(plan.newest, plan.retained, Weekly, policy.weekly, r);
    }
  }

  lemma {:induction false} PlanPartition(records: seq<Record>, att: Attestations, policy: Policy, plan: Plan)
    requires IsPlan(records, att, policy, plan)
    requires forall r :: r in plan.knownGood ==> r in plan.newest
    ensures Ids(plan.deleting) + plan.retained == Ids(records)
    ensures DistinctIds(records) ==> Ids(plan.deleting) !! plan.retained
  {
    MultisetMembers(plan.newest, records);
    WithoutMembers(plan.newest, plan.retained);
    OfClassMembers(plan.newest, Daily);
    OfClassMembers(plan.newest, Weekly);
    assert Ids(plan.deleting) + plan.retained <= Ids(plan.newest);
    forall id | id in Ids(plan.newest) ensures id in Ids(plan.deleting) + plan.retained {
      var r :| r in plan.newest && r.id == id;
    }
  }

  lemma {:induction false} PlanSize(records: seq<Record>, att: Attestations, policy: Policy, plan: Plan)
    requires IsPlan(records, att, policy, plan)
    ensures |plan.retained| <= policy.minimumKnownGood + policy.daily + policy.weekly
  {
    IdsSize(plan.knownGood);
    IdsSize(FirstOfClass(plan.newest, Daily, policy.daily));
    IdsSize(FirstOfClass(plan.newest, Weekly, policy.weekly));
  }

  lemma {:induction false} FirstIsKept(newest: seq<Record>, c: RetentionClass, n: nat)
    requires n >= 1 && newest != [] && c in newest[0].classes
    ensures newest[0].id in Ids(FirstOfClass(newest, c, n))
  {
  }

  lemma {:induction false} PlanKeepsNewest(plan: Plan, policy: Policy)
    requires policy.Valid() && plan.newest != []
    requires plan.retained == Retained(plan.newest, plan.knownGood, policy)
    ensures plan.newest[0].classes != {} ==> plan.newest[0].id in plan.retained
  {
    if plan.newest[0].classes != {} {
      var c :| c in plan.newest[0].classes;
      assert c == Daily || c == Weekly;
      FirstIsKept(plan.newest, c, if c == Daily then policy.daily else policy.weekly);
    }
  }

  lemma {:induction false} PlanKnownGood(records: seq<Record>, att: Attestations, policy: Policy, plan: Plan)
    requires IsPlan(records, att, policy, plan)
    ensures forall r :: r in plan.knownGood ==> r in records && r.id in att
    ensures Independent(plan.knownGood, att)
    ensures Digests(plan.knownGood, att).Keys == Ids(plan.knownGood)
  {
    MultisetMembers(plan.newest, records);
    var good := KnownGood(plan.newest, att, {}, {});
    KnownGoodMembers(plan.newest, att, {}, {});
    KnownGoodIndependent(plan.newest, att, {}, {});
    assert forall r :: r in plan.knownGood ==> r in good;
  }

  /** Safety of every plan the planner returns. */
  lemma {:induction false} RetentionSafe(records: seq<Record>, att: Attestations, anchor: Anchor, policy: Policy,
                                         plan: Plan)
    requires Verified(records)
    requires PlanOf(records, att, anchor, policy) == Ok(plan)
    // kept and deleted partition the records
    ensures Ids(plan.deleting) !! plan.retained && Ids(plan.deleting) + plan.retained == Ids(records)
    ensures multiset(plan.newest) == multiset(records)
    // exactly the minimum number of attested, mutually independent copies is kept
    ensures |plan.knownGood| == policy.minimumKnownGood && Ids(plan.knownGood) <= plan.retained
    ensures forall r :: r in plan.knownGood ==> r in records && r.id in att
    ensures Independent(plan.knownGood, att)
    ensures plan.digests.Keys == Ids(plan.knownGood)
    ensures forall id :: id in plan.digests ==> id in att && plan.digests[id] == att[id].digest
    // a deleted record is older than a full quota of kept records of each of its classes
    ensures forall r :: r in plan.deleting && Daily in r.classes ==> QuotaKept(plan, Daily, policy.daily, r)
    ensures forall r :: r in plan.deleting && Weekly in r.classes ==> QuotaKept(plan, Weekly, policy.weekly, r)
    // the newest record is kept
    ensures plan.newest != [] && plan.newest[0].id in plan.retained
    ensures forall r :: r in records ==> !StringLess(plan.newest[0].createdAt, r.createdAt)
    ensures |plan.retained| <= policy.minimumKnownGood + policy.daily + policy.weekly
  {
    PlanShape(records, att, anchor, policy, plan);
    SortNewestSorts(records);
    PlanKnownGood(records, att, policy, plan);
    WithoutMembers(plan.newest, plan.retained);
    forall r | r in plan.deleting
      ensures Daily in r.classes ==> QuotaKept(plan, Daily, policy.daily, r)
      ensures Weekly in r.classes ==> QuotaKept(plan, Weekly, policy.weekly, r)
    {
      PlanQuota(plan, policy, r);
    }
    PlanPartition(records, att, policy, plan);
    PlanSize(records, att, policy, plan);
    PlanKeepsNewest(plan, policy);
    MultisetMembers(plan.newest, records);
    assert plan.newest[0] in plan.newest;
    FirstIsLatest(plan.newest);
  }

  lemma {:induction false} FirstIsLatest(newest: seq<Record>)
    requires NewestFirst(newest) && newest != []
    ensures forall r :: r in newest ==> !StringLess(newest[0].createdAt, r.createdAt)
  {
    forall r | r in newest ensures !StringLess(newest[0].createdAt, r.createdAt) {
      NewerNotEarlier(newest[0], r);
      StringLessTotal(r.createdAt, r.createdAt);
    }
  }

  /** The records of a class that are newer than `r`. */
  ghost function NewerOfClass(records: seq<Record>, r: Record, c: RetentionClass): set<Record> {
    set t | t in records && c in t.classes && Newer(t, r)
  }

  function RecordsOf(s: seq<Record>): set<Record> {
    set r | r in s
  }

  lemma {:induction false} RecordsOfSize(s: seq<Record>)
    requires DistinctIds(s)
    ensures |RecordsOf(s)| == |s|
  {
    if s != [] {
      RecordsOfSize(s[1..]);
      assert s[0] !in s[1..];
      assert RecordsOf(s) == RecordsOf(s[1..]) + {s[0]};
    }
  }

  /** The place of a record in its class is the number of newer records of the class. */
  lemma {:induction false} ClassRank(newest: seq<Record>, c: RetentionClass, k: nat)
    requires NewestFirst(newest) && DistinctIds(newest) && k < |OfClass(newest, c)|
    ensures |NewerOfClass(newest, OfClass(newest, c)[k], c)| == k
  {
    var members := OfClass(newest, c);
    var r := members[k];
    OfClassMembers(newest, c);
    OfClassNewestFirst(newest, c);
    OfClassDistinct(newest, c);
    forall t | t in NewerOfClass(newest, r, c) ensures t in RecordsOf(members[..k]) {
      var i :| 0 <= i < |members| && members[i] == t;
      StringLessTotal(t.createdAt, r.createdAt);
      StringLessTotal(t.id, r.id);
      assert i < k;
      assert members[..k][i] == t;
    }
    assert forall i :: 0 <= i < k ==> members[i] in members && Newer(members[i], r);
    assert NewerOfClass(newest, r, c) == RecordsOf(members[..k]);
    RecordsOfSize(members[..k]);
  }

  lemma {:induction false} OfClassDistinct(s: seq<Record>, c: RetentionClass)
    requires DistinctIds(s)
    ensures DistinctIds(OfClass(s, c))
  {
    if s != [] {
      OfClassDistinct(s[1..], c);
      OfClassMembers(s[1..], c);
    }
  }

  /** A record is among the first n of a class exactly when fewer than n records of the class are newer. */
  lemma {:induction false} FirstOfClassExact(newest: seq<Record>, c: RetentionClass, n: nat, r: Record)
    requires NewestFirst(newest) && DistinctIds(newest) && r in newest
    ensures r.id in Ids(FirstOfClass(newest, c, n)) <==> c in r.classes && |NewerOfClass(newest, r, c)| < n
  {
    var members := OfClass(newest, c);
    OfClassMembers(newest, c);
    OfClassDistinct(newest, c);
    if c in r.classes {
      var k :| 0 <= k < |members| && members[k] == r;
      ClassRank(newest, c, k);
      if k < n {
        assert Take(members, n)[k] == r;
      }
    }
    forall t | t in FirstOfClass(newest, c, n) && t.id == r.id
      ensures c in r.classes && |NewerOfClass(newest, r, c)| < n
    {
      var i :| 0 <= i < |Take(members, n)| && Take(members, n)[i] == t;
      assert t in members && t == r;
      ClassRank(newest, c, i);
    }
  }

  /** Which records a plan keeps, without any of its selections: the known-good copies, and those with
      fewer than `daily` newer daily records or fewer than `weekly` newer weekly ones. */
  lemma {:induction false} RetainedExactly(records: seq<Record>, att: Attestations, anchor: Anchor, policy: Policy,
                                           plan: Plan, r: Record)
    requires DistinctIds(records) && r in records
    requires PlanOf(records, att, anchor, policy) == Ok(plan)
    ensures r.id in plan.retained <==>
      || r in plan.knownGood
      || (Daily in r.classes && |NewerOfClass(records, r, Daily)| < policy.daily)
      || (Weekly in r.classes && |NewerOfClass(records, r, Weekly)| < policy.weekly)
  {
    PlanShape(records, att, anchor, policy, plan);
    SortNewestSorts(records);
    MultisetMembers(plan.newest, records);
    PermutationDistinct(records, plan.newest);
    FirstOfClassExact(plan.newest, Daily, policy.daily, r);
    FirstOfClassExact(plan.newest, Weekly, policy.weekly, r);
    assert forall c :: NewerOfClass(plan.newest, r, c) == NewerOfClass(records, r, c);
    assert r.id in Ids(plan.knownGood) <==> r in plan.knownGood;
  }

  lemma {:induction false} ReceiptOfRecord(s: seq<Record>, id: string, receipt: string)
    requires DistinctIds(s)
    ensures ReceiptOf(s, id) == Some(receipt) <==> exists r :: r in s && r.id == id && r.receipt == receipt
  {
    if s != [] {
      var before, last := s[..|s| - 1], s[|s| - 1];
      assert s == before + [last];
      ReceiptOfRecord(before, id, receipt);
      assert forall r :: r in s <==> r in before || r == last;
      if last.id == id {
        assert forall r :: r in before ==> r.id != id;
      }
    }
  }

  /** When the planner refuses, and why. */
  lemma {:induction false} PlanErrors(records: seq<Record>, att: Attestations, anchor: Anchor, policy: Policy)
    requires DistinctIds(records)
    ensures var r := PlanOf(records, att, anchor, policy);
            var counted := policy.daily >= 1 && policy.weekly >= 1 && policy.minimumKnownGood >= 2;
            var verified := exists t :: t in records && t.id == anchor.id && t.receipt == anchor.receipt;
            var good := |KnownGood(SortNewest(records), att, {}, {})|;
            && (r == Err(InvalidAnchor) <==> !ValidAnchor(anchor))
            && (r == Err(InvalidCounts) <==> ValidAnchor(anchor) && !counted)
            && (r == Err(UnverifiedAnchor) <==> ValidAnchor(anchor) && counted && !verified)
            && (r == Err(TooFewKnownGood) <==>
                ValidAnchor(anchor) && counted && verified && good < policy.minimumKnownGood)
            && (r == Err(InvalidByteCount) ==> exists t :: t in records && t.bytes < 0)
  {
    ReceiptOfRecord(records, anchor.id, anchor.receipt);
    var newest := SortNewest(records);
    MultisetMembers(newest, records);
    if PlanOf(records, att, anchor, policy) == Err(InvalidByteCount) {
      var retained := Retained(newest, KnownGood(newest, att, {}, {})[..policy.minimumKnownGood], policy);
      WithoutMembers(newest, retained);
    }
  }

  /** The kept known-good copies are the newest: an attested record that is not among them is older
      than all of them, or repeats the restore id or target identity of a newer kept one. */
  lemma {:induction false} KnownGoodNewest(records: seq<Record>, att: Attestations, anchor: Anchor, policy: Policy,
                        plan: Plan, r: Record)
    requires DistinctIds(records)
    requires PlanOf(records, att, anchor, policy) == Ok(plan)
    requires r in records && r.id in att && r !in plan.knownGood
    ensures (forall g :: g in plan.knownGood ==> Newer(g, r)) ||
            (exists g :: g in plan.knownGood && g.id in att && Newer(g, r) &&
               (att[g.id].restoreId == att[r.id].restoreId || att[g.id].targetIdentity == att[r.id].targetIdentity))
  {
    PlanShape(records, att, anchor, policy, plan);
    SortNewestSorts(records);
    MultisetMembers(plan.newest, records);
    GreedyIsNewest(plan.newest, att, policy.minimumKnownGood, r);
  }

  lemma {:induction false} GreedyIsNewest(s: seq<Record>, att: Attestations, n: nat, r: Record)
    requires NewestFirst(s) && n <= |KnownGood(s, att, {}, {})|
    requires r in s && r.id in att && r !in KnownGood(s, att, {}, {})[..n]
    ensures (forall g :: g in KnownGood(s, att, {}, {})[..n] ==> Newer(g, r)) ||
            (exists g :: g in KnownGood(s, att, {}, {})[..n] && g.id in att && Newer(g, r) && Repeats(att, g, r))
  {
    var good := KnownGood(s, att, {}, {});
    KnownGoodMembers(s, att, {}, {});
    KnownGoodNewestFirst(s, att, {}, {});
    if r in good {
      TailOlder(good, n, r);
    } else {
      KnownGoodPassedOver(s, att, {}, {}, r);
      var g :| g in good && Newer(g, r) && Repeats(att, g, r);
      if g !in good[..n] {
        TailOlder(good, n, g);
        forall h | h in good[..n] ensures Newer(h, r) {
          NewerTransitive(h, g, r);
        }
      }
    }
  }

  lemma {:induction false} TailOlder(s: seq<Record>, n: nat, r: Record)
    requires NewestFirst(s) && n <= |s| && r in s && r !in s[..n]
    ensures forall h :: h in s[..n] ==> Newer(h, r)
  {
  }

  lemma {:induction false} KnownGoodNewestFirst(s: seq<Record>, att: Attestations,
                                                restores: set<string>, targets: set<string>)
    requires NewestFirst(s)
    ensures NewestFirst(KnownGood(s, att, restores, targets))
  {
    if s != [] {
      if Selectable(s[0], att, restores, targets) {
        var restores', targets' := restores + {att[s[0].id].restoreId}, targets + {att[s[0].id].targetIdentity};
        KnownGoodNewestFirst(s[1..], att, restores', targets');
        var rest := KnownGood(s[1..], att, restores', targets');
        KnownGoodMembers(s[1..], att, restores', targets');
        assert forall j :: 0 <= j < |rest| ==> rest[j] in s[1..];
      } else {
        KnownGoodNewestFirst(s[1..], att, restores, targets);
      }
    }
  }

  // ---- Idempotence -------------------------------------------------------------------------

  lemma {:induction false} KeepMultiplicity(s: seq<Record>, ids: set<string>, r: Record)
    ensures multiset(Keep(s, ids))[r] == if r.id in ids then multiset(s)[r] else 0
  {
    if s != [] {
      KeepMultiplicity(s[1..], ids, r);
      assert s == [s[0]] + s[1..];
    }
  }

  lemma {:induction false} KeepNewestFirst(s: seq<Record>, ids: set<string>)
    requires NewestFirst(s)
    ensures NewestFirst(Keep(s, ids))
  {
    if s != [] {
      KeepNewestFirst(s[1..], ids);
      KeepMembers(s[1..], ids);
      var rest := Keep(s[1..], ids);
      assert forall j :: 0 <= j < |rest| ==> rest[j] in s[1..];
    }
  }

  /** Deleting records that the first `n` greedy choices do not use leaves those choices unchanged. */
  lemma {:induction false} KnownGoodStable(s: seq<Record>, att: Attestations, restores: set<string>,
                                           targets: set<string>, n: nat, ids: set<string>)
    requires n <= |KnownGood(s, att, restores, targets)|
    requires Ids(KnownGood(s, att, restores, targets)[..n]) <= ids
    ensures n <= |KnownGood(Keep(s, ids), att, restores, targets)|
    ensures KnownGood(Keep(s, ids), att, restores, targets)[..n] == KnownGood(s, att, restores, targets)[..n]
  {
    if s != [] && n > 0 {
      var h := s[0];
      var all := KnownGood(s, att, restores, targets);
      if Selectable(h, att, restores, targets) {
        var restores', targets' := restores + {att[h.id].restoreId}, targets + {att[h.id].targetIdentity};
        var rest := KnownGood(s[1..], att, restores', targets');
        assert all[..n] == [h] + rest[..n - 1];
        assert h in all[..n];
        assert forall g :: g in rest[..n - 1] ==> g in all[..n];
        KnownGoodStable(s[1..], att, restores', targets', n - 1, ids);
        assert Keep(s, ids)[1..] == Keep(s[1..], ids);
      } else {
        KnownGoodStable(s[1..], att, restores, targets, n, ids);
        if h.id in ids {
          assert Keep(s, ids)[1..] == Keep(s[1..], ids);
        }
      }
    }
  }

  lemma {:induction false} FirstOfClassStable(s: seq<Record>, c: RetentionClass, n: nat, ids: set<string>)
    requires Ids(Take(OfClass(s, c), n)) <= ids
    ensures Take(OfClass(Keep(s, ids), c), n) == Take(OfClass(s, c), n)
  {
    if s != [] && n > 0 {
      var h := s[0];
      var first := Take(OfClass(s, c), n);
      if c in h.classes {
        var rest := Take(OfClass(s[1..], c), n - 1);
        assert first == [h] + rest;
        assert h in first;
        assert forall g :: g in rest ==> g in first;
        FirstOfClassStable(s[1..], c, n - 1, ids);
        assert Keep(s, ids)[1..] == Keep(s[1..], ids);
      } else {
        FirstOfClassStable(s[1..], c, n, ids);
        if h.id in ids {
          assert Keep(s, ids)[1..] == Keep(s[1..], ids);
        }
      }
    }
  }

  /** Surviving records, listed in any order, sort to what was kept of the sorted records. */
  lemma {:induction false} SortedSurvivors(records: seq<Record>, ids: set<string>, survivors: seq<Record>)
    requires DistinctIds(records) && multiset(survivors) == multiset(Keep(records, ids))
    ensures SortNewest(survivors) == Keep(SortNewest(records), ids)
  {
    var newest := SortNewest(records);
    var kept := Keep(newest, ids);
    SortNewestSorts(records);
    KeepNewestFirst(newest, ids);
    forall r ensures multiset(kept)[r] == multiset(survivors)[r] {
      KeepMultiplicity(newest, ids, r);
      KeepMultiplicity(records, ids, r);
    }
    assert multiset(kept) == multiset(survivors);
    assert DistinctIds(survivors) by {
      KeepDistinct(records, ids);
      PermutationDistinct(Keep(records, ids), survivors);
    }
    SortNewestSorts(survivors);
    NewestFirstUnique(SortNewest(survivors), kept);
  }

  /** The same attestations load for the given ids. */
  predicate AgreeOn(att: Attestations, att': Attestations, ids: set<string>) {
    forall id :: id in ids ==> (id in att <==> id in att') && (id in att && id in att' ==> att[id] == att'[id])
  }

  lemma {:induction false} KnownGoodCongruent(s: seq<Record>, att: Attestations, att': Attestations,
                                              restores: set<string>, targets: set<string>)
    requires AgreeOn(att, att', Ids(s))
    ensures KnownGood(s, att, restores, targets) == KnownGood(s, att', restores, targets)
  {
    if s != [] {
      assert s[0].id in Ids(s) && Ids(s[1..]) <= Ids(s);
      KnownGoodCongruent(s[1..], att, att', restores, targets);
      if Selectable(s[0], att, restores, targets) {
        var a := att[s[0].id];
        KnownGoodCongruent(s[1..], att, att', restores + {a.restoreId}, targets + {a.targetIdentity});
      }
    }
  }

  /** A plan depends only on the attestations of the records it is made for. */
  lemma {:induction false} PlanCongruent(records: seq<Record>, att: Attestations, att': Attestations, anchor: Anchor,
                                         policy: Policy)
    requires AgreeOn(att, att', Ids(records))
    ensures PlanOf(records, att, anchor, policy) == PlanOf(records, att', anchor, policy)
  {
    if ValidAnchor(anchor) && policy.Valid() && VerifiedAnchor(records, anchor) {
      var newest := SortNewest(records);
      MultisetMembers(newest, records);
      KnownGoodCongruent(newest, att, att', {}, {});
      var good := KnownGood(newest, att, {}, {});
      if |good| >= policy.minimumKnownGood {
        KnownGoodMembers(newest, att, {}, {});
        DigestsCongruent(good[..policy.minimumKnownGood], att, att', Ids(records));
      }
    }
  }

  lemma {:induction false} DigestsCongruent(good: seq<Record>, att: Attestations, att': Attestations, ids: set<string>)
    requires AgreeOn(att, att', ids) && Ids(good) <= ids
    ensures Digests(good, att) == Digests(good, att')
  {
  }

  lemma {:induction false} SamePlanAgain(records: seq<Record>, att: Attestations, anchor: Anchor, policy: Policy,
                                         plan: Plan, survivors: seq<Record>, anchor': Anchor)
    requires DistinctIds(records)
    requires PlanOf(records, att, anchor, policy) == Ok(plan)
    requires multiset(survivors) == multiset(Keep(records, plan.retained))
    requires ValidAnchor(anchor') && VerifiedAnchor(survivors, anchor')
    ensures PlanOf(survivors, att, anchor', policy) ==
            Ok(Plan(Keep(plan.newest, plan.retained), plan.knownGood, plan.digests, plan.retained, [], 0))
  {
    PlanShape(records, att, anchor, policy, plan);
    var newest, ids := plan.newest, plan.retained;
    SortedSurvivors(records, ids, survivors);
    KnownGoodStable(newest, att, {}, {}, policy.minimumKnownGood, ids);
    FirstOfClassStable(newest, Daily, policy.daily, ids);
    FirstOfClassStable(newest, Weekly, policy.weekly, ids);
    KeepThenWithout(newest, ids);
  }

  /** Planning is idempotent: once a plan has been applied, planning again on the records that
      survive, listed in any order and anchored at any of them, picks the same known-good copies,
      keeps the same set and deletes nothing. Only the attestations of the survivors need to load
      as before; those of deleted backups may be gone. */
  lemma {:induction false} RetentionIdempotent(records: seq<Record>, att: Attestations, anchor: Anchor, policy: Policy,
                            plan: Plan, survivors: seq<Record>, anchor': Anchor, att': Attestations)
    requires DistinctIds(records)
    requires PlanOf(records, att, anchor, policy) == Ok(plan)
    requires multiset(survivors) == multiset(Keep(records, plan.retained))
    requires ValidAnchor(anchor') && VerifiedAnchor(survivors, anchor')
    requires AgreeOn(att, att', plan.retained)
    ensures PlanOf(survivors, att', anchor', policy) ==
            Ok(Plan(Keep(plan.newest, plan.retained), plan.knownGood, plan.digests, plan.retained, [], 0))
  {
    SamePlanAgain(records, att, anchor, policy, plan, survivors, anchor');
    assert Ids(survivors) <= plan.retained by {
      MultisetMembers(survivors, Keep(records, plan.retained));
      KeepMembers(records, plan.retained);
    }
    PlanCongruent(survivors, att, att', anchor', policy);
  }

  lemma {:induction false} KeepThenWithout(s: seq<Record>, ids: set<string>)
    ensures Without(Keep(s, ids), ids) == []
  {
    if s != [] {
      KeepThenWithout(s[1..], ids);
    }
  }

  lemma {:induction false} PermutationDistinct(s: seq<Record>, t: seq<Record>)
    requires DistinctIds(s) && multiset(t) == multiset(s)
    ensures DistinctIds(t)
  {
    MultisetMembers(t, s);
    forall i, j | 0 <= i < j < |t| ensures t[i].id != t[j].id {
      var a, b := t[i], t[j];
      DistinctOnce(s, a);
      assert a == b ==> multiset(t)[a] >= 2 by {
        assert t == t[..j] + [b] + t[j + 1..];
        assert t[..j][i] == a && a in t[..j];
      }
      assert a in s && b in s;
    }
  }

  lemma {:induction false} KeepDistinct(s: seq<Record>, ids: set<string>)
    requires DistinctIds(s)
    ensures DistinctIds(Keep(s, ids)) && DistinctIds(Without(s, ids))
  {
    if s != [] {
      KeepDistinct(s[1..], ids);
      KeepMembers(s[1..], ids);
      WithoutMembers(s[1..], ids);
      var k, w := Keep(s[1..], ids), Without(s[1..], ids);
      assert forall j :: 0 <= j < |k| ==> k[j] in s[1..];
      assert forall j :: 0 <= j < |w| ==> w[j] in s[1..];
    }
  }

  lemma {:induction false} DistinctOnce(s: seq<Record>, r: Record)
    requires DistinctIds(s)
    ensures multiset(s)[r] <= 1
  {
    if s != [] {
      DistinctOnce(s[1..], r);
      assert s == [s[0]] + s[1..];
      assert s[0] !in s[1..];
    }
  }
}
