/**
 The audit chain of the store: append-only actions, each committing to its
 predecessor through a digest.  The digest function is a parameter everywhere,
 so every result below holds for every hash.
 */
module AuditChain {
  import opened Wrappers

  type Sha = seq<byte>

  const GENESIS_SHA: Sha := [0, 0, 0, 0, 0, 0, 0, 0, 0, 0, 0, 0, 0, 0, 0, 0,
                             0, 0, 0, 0, 0, 0, 0, 0, 0, 0, 0, 0, 0, 0, 0, 0]

  /** What `--accept-witness-genesis` records about the adopted prefix. */
  datatype AdoptDetails = AdoptDetails(baselineID: int, baselineHex: string, acknowledgment: string)

  /** What `--accept-witness-chain-reset` records about the abandoned chain. */
  datatype ResetDetails = ResetDetails(tip: Tip, acknowledgment: string)

  /** JSON details.  `Text` is any other document with the result of reading it as adoption details. */
  datatype Details =
    | AdoptJson(adopt: AdoptDetails)
    | ResetJson(reset: ResetDetails)
    | Text(json: string, asAdopt: Option<AdoptDetails>)

  datatype Spec = Spec(actor: string, action: string, resourceType: string, resourceID: string, details: Details)

  datatype Action = Action(id: int, spec: Spec, previous: Sha, sha: Sha, createdAt: int)

  datatype Head = Head(id: int, sha: Sha)

  /** A public transparency-log entry of this deployment's witness identity. */
  datatype Tip = Tip(uuid: string, logIndex: int, integratedAt: int, auditID: int, auditSha: Sha, previousUUID: string)

  type Digest = (int, Sha, Spec, int) -> Sha

  function HeadOf(actions: seq<Action>): Head {
    if actions == [] then Head(0, GENESIS_SHA)
    else Head(actions[|actions| - 1].id, actions[|actions| - 1].sha)
  }

  /** The next link, as `appendAuditAction` builds it. */
  function Link(digest: Digest, actions: seq<Action>, spec: Spec, at: int): Action {
    var head := HeadOf(actions);
    Action(head.id + 1, spec, head.sha, digest(head.id + 1, head.sha, spec, at), at)
  }

  /** `appendAuditAction` refuses a non-positive clock and a head that does not recompute. */
  predicate CanAppend(digest: Digest, actions: seq<Action>, at: int) {
    && at > 0
    && (actions == [] ||
        var last := actions[|actions| - 1];
        last.sha == digest(last.id, last.previous, last.spec, last.createdAt))
  }

  /** What walking the complete chain verifies. */
  predicate WellLinked(digest: Digest, actions: seq<Action>) {
    forall i | 0 <= i < |actions| ::
      && actions[i].id == i + 1
      && actions[i].previous == HeadOf(actions[..i]).sha
      && actions[i].sha == digest(actions[i].id, actions[i].previous, actions[i].spec, actions[i].createdAt)
  }

  /** Rows of a table with a positive integer primary key, in key order. */
  predicate OrderedRows(actions: seq<Action>) {
    && (forall i | 0 <= i < |actions| :: actions[i].id >= 1)
    && (forall i, j | 0 <= i < j < |actions| :: actions[i].id < actions[j].id)
  }

  /** An append keeps a verified chain verified, and verified chains can always be extended. */
  lemma LinkKeepsChain(digest: Digest, actions: seq<Action>, spec: Spec, at: int)
    requires WellLinked(digest, actions)
    ensures WellLinked(digest, actions + [Link(digest, actions, spec, at)])
    ensures HeadOf(actions).id == |actions|
    ensures at > 0 ==> CanAppend(digest, actions, at)
  {
  }

  /** The chain before its first action. */
  lemma EmptyHead()
    ensures HeadOf([]).id == 0 && |HeadOf([]).sha| == 32 && forall i | 0 <= i < 32 :: HeadOf([]).sha[i] == 0
  {
  }

  lemma LinkIsDetermined(digest: Digest, a: seq<Action>, b: seq<Action>, k: nat)
    requires WellLinked(digest, a) && WellLinked(digest, b) && k < |a| && k < |b|
    requires a[..k] == b[..k] && a[k].spec == b[k].spec && a[k].createdAt == b[k].createdAt
    ensures a[k] == b[k]
  {
    hide HeadOf;
  }

  /** What was recorded and when determines a verified chain: ids, links and hashes leave no choice. */
  lemma {:induction false} ChainIsDetermined(digest: Digest, a: seq<Action>, b: seq<Action>)
    requires WellLinked(digest, a) && WellLinked(digest, b) && |a| == |b|
    requires forall i | 0 <= i < |a| :: a[i].spec == b[i].spec && a[i].createdAt == b[i].createdAt
    ensures a == b
  {
    hide WellLinked;
    for k := 0 to |a|
      invariant a[..k] == b[..k]
    {
      LinkIsDetermined(digest, a, b, k);
      assert a[..k + 1] == a[..k] + [a[k]] && b[..k + 1] == b[..k] + [b[k]];
    }
    assert a[..|a|] == a && b[..|b|] == b;
  }
}
