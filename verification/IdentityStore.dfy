/**
 The runtime identity bundle in a versioned key-value store.  Writes are
 check-and-set on the version that was read; `Save` keeps every nonempty field
 except `known_hosts`.  Servers bootstrap concurrently.
 */
module IdentityStore {
  import opened Wrappers

  type Blob = seq<byte>
  type Bundle = map<string, Blob>

  const KNOWN_HOSTS := "known_hosts"
  const HOST_KEY := "ssh_host_key"

  /** The stored bundle; version 0 means never created, and a stored bundle is never empty. */
  datatype KV = KV(version: nat, data: Bundle) {
    predicate Valid() { version == 0 <==> data == map[] }
  }

  function Field(data: Bundle, key: string): Blob { if key in data then data[key] else [] }

  /** A field that `Save` refuses to replace. */
  predicate Conflicts(data: Bundle, values: Bundle, key: string) {
    key in values && Field(data, key) != [] && Field(data, key) != values[key] && key != KNOWN_HOSTS
  }

  predicate Refuses(data: Bundle, values: Bundle) { exists key | key in values :: Conflicts(data, values, key) }

  /** What check-and-set makes of a write prepared against `base`. */
  function Commit(kv: KV, base: KV, values: Bundle): Option<KV> {
    if kv.version != base.version || base.data + values == map[] then None
    else Some(KV(kv.version + 1, base.data + values))
  }

  // ---------------------------------------------------------------- Save

  /** The merge loop of `Save`, in whatever order the map is ranged over. */
  method Merge(data: Bundle, values: Bundle) returns (merged: Bundle, ok: bool)
    ensures ok <==> !Refuses(data, values)
    ensures ok ==> merged == data + values
  {
    merged := data;
    var todo := values.Keys;
    while todo != {}
      invariant todo <= values.Keys
      invariant merged.Keys == data.Keys + (values.Keys - todo)
      invariant forall key | key in merged ::
                  merged[key] == if key in values && key !in todo then values[key] else Field(data, key)
      invariant forall key | key in values && key !in todo :: !Conflicts(data, values, key)
      decreases todo
    {
      var key :| key in todo;
      assert Field(merged, key) == Field(data, key);
      if Field(merged, key) != [] && Field(merged, key) != values[key] && key != KNOWN_HOSTS {
        assert Conflicts(data, values, key);
        return merged, false;
      }
      merged, todo := merged[key := values[key]], todo - {key};
    }
    return merged, true;
  }

  /** A client of the store; `meanwhile` is what other clients leave between its read and its write. */
  class Store {
    var kv: KV

    constructor (kv: KV)
      ensures this.kv == kv
    {
      this.kv := kv;
    }

    /**
     `Save` succeeds exactly if nobody wrote since the read, no nonempty field
     other than `known_hosts` would change, and there is something to store; then
     every given field has its value and every other one keeps its own.  Otherwise
     the bundle stays what others made it.
     */
    method Save(values: Bundle, meanwhile: KV) returns (ok: bool)
      modifies this
      ensures ok <==>
              && meanwhile.version == old(kv).version && (old(kv).data != map[] || values != map[])
              && forall key | key in values && key in old(kv).data && old(kv).data[key] != [] && key != "known_hosts" ::
                   values[key] == old(kv).data[key]
      ensures ok ==> kv.version == old(kv).version + 1 && kv.data.Keys == old(kv).data.Keys + values.Keys
      ensures ok ==> forall key | key in kv.data :: kv.data[key] == if key in values then values[key] else old(kv).data[key]
      ensures !ok ==> kv == meanwhile
      ensures ok <==> !Refuses(old(kv).data, values) && Commit(meanwhile, old(kv), values).Some?
      ensures kv == if ok then Commit(meanwhile, old(kv), values).value else meanwhile
    {
      var base := kv;
      var merged, clean := Merge(base.data, values);
      kv := meanwhile;
      assert base.data + values == map[] <==> base.data == map[] && values == map[] by {
        assert (base.data + values).Keys == base.data.Keys + values.Keys;
      }
      assert forall key | key in values :: Conflicts(base.data, values, key) <==>
               key in base.data && base.data[key] != [] && key != "known_hosts" && values[key] != base.data[key];
      if !clean || kv.version != base.version || merged == map[] { return false; }
      kv := KV(base.version + 1, merged);
      return true;
    }
  }

  /** When a write against `base` takes effect, and what it leaves. */
  lemma CommitIff(kv: KV, base: KV, values: Bundle)
    ensures Commit(kv, base, values).Some? <==> kv.version == base.version && (base.data != map[] || values != map[])
    ensures Commit(kv, base, values).Some? ==>
              var after := Commit(kv, base, values).value;
              && after.version == kv.version + 1 && after.data.Keys == base.data.Keys + values.Keys
              && forall key | key in after.data :: after.data[key] == if key in values then values[key] else base.data[key]
  {
    assert (base.data + values).Keys == base.data.Keys + values.Keys;
  }

  // ---------------------------------------------------------------- concurrent bootstrap

  /** Where one client stands.  A saver is any other caller of `Save` on this bundle. */
  datatype Client =
    | Booting
    | Generated(own: Bundle)
    | Pending(values: Bundle)
    | Writing(values: Bundle, base: KV, boot: bool)
    | Ready(held: Bundle)
    | Stopped

  datatype System = System(kv: KV, clients: seq<Client>)

  /**
   One atomic step of one client.  `WriteLost` is a write that took effect
   although its caller saw an error; `IssueLeaf` puts an issued certificate over
   the stored one, in memory only.
   */
  datatype Move = Load(generated: Bundle) | SaveRead | SaveWrite | WriteLost | IssueLeaf(crt: Blob, key: Blob, ca: Blob) | Fail

  function LoadIdentity(kv: KV, generated: Bundle): Client {
    if kv.version == 0 then (if Field(generated, HOST_KEY) == [] then Stopped else Generated(generated))
    else if Field(kv.data, HOST_KEY) == [] then Stopped
    else Ready(kv.data)
  }

  function Step(sys: System, i: nat, move: Move): System
    requires i < |sys.clients|
  {
    var kv := sys.kv;
    match (sys.clients[i], move)
    case (Booting, Load(generated)) => sys.(clients := sys.clients[i := LoadIdentity(kv, generated)])
    case (Generated(own), SaveRead) =>
      sys.(clients := sys.clients[i := if Refuses(kv.data, own) then Stopped else Writing(own, kv, true)])
    case (Pending(values), SaveRead) =>
      sys.(clients := sys.clients[i := if Refuses(kv.data, values) then Stopped else Writing(values, kv, false)])
    case (Writing(values, base, boot), SaveWrite) =>
      (match Commit(kv, base, values)
       case None => sys.(clients := sys.clients[i := Stopped])
       case Some(kv') => System(kv', sys.clients[i := if boot then Ready(values) else Stopped]))
    case (Writing(values, base, _), WriteLost) =>
      System(if Commit(kv, base, values).Some? then Commit(kv, base, values).value else kv, sys.clients[i := Stopped])
    case (Ready(held), IssueLeaf(crt, key, ca)) =>
      sys.(clients := sys.clients[i := Ready(held["tls.crt" := crt]["tls.key" := key]["ca.crt" := ca])])
    case (_, Fail) => sys.(clients := sys.clients[i := Stopped])
    case _ => sys
  }

  datatype Turn = Turn(client: nat, move: Move)

  function Run(sys: System, turns: seq<Turn>): System
    decreases |turns|
  {
    if turns == [] then sys
    else Run(if turns[0].client < |sys.clients| then Step(sys, turns[0].client, turns[0].move) else sys, turns[1..])
  }

  /** What holds of one client against the stored bundle. */
  ghost predicate ClientOk(kv: KV, c: Client) {
    match c
    case Generated(own) => Field(own, HOST_KEY) != []
    case Writing(values, base, boot) =>
      && base.Valid() && base.version <= kv.version && (base.version == kv.version ==> base == kv)
      && !Refuses(base.data, values) && (boot ==> Field(values, HOST_KEY) != [])
    case Ready(held) => Field(held, HOST_KEY) != [] && Field(held, HOST_KEY) == Field(kv.data, HOST_KEY)
    case _ => true
  }

  ghost predicate Inv(sys: System) {
    sys.kv.Valid() && forall i | 0 <= i < |sys.clients| :: ClientOk(sys.kv, sys.clients[i])
  }

  /** A nonempty field other than `known_hosts` keeps its value. */
  ghost predicate FieldsKept(before: Bundle, after: Bundle) {
    forall key | Field(before, key) != [] && key != "known_hosts" :: Field(after, key) == Field(before, key)
  }

  lemma CommitKeepsFields(kv: KV, base: KV, values: Bundle)
    requires Commit(kv, base, values).Some? && base == kv && !Refuses(base.data, values)
    ensures Commit(kv, base, values).value.Valid()
    ensures FieldsKept(kv.data, Commit(kv, base, values).value.data)
    ensures forall key | key in values :: Field(Commit(kv, base, values).value.data, key) == values[key]
  {
  }

  /** A client that is not moving survives any commit. */
  lemma OthersUnaffected(kv: KV, kv': KV, c: Client)
    requires ClientOk(kv, c) && kv'.version > kv.version && FieldsKept(kv.data, kv'.data)
    ensures ClientOk(kv', c)
  {
  }

  lemma StepKeepsInv(sys: System, i: nat, move: Move)
    requires Inv(sys) && i < |sys.clients|
    ensures Inv(Step(sys, i, move)) && FieldsKept(sys.kv.data, Step(sys, i, move).kv.data)
  {
    var next := Step(sys, i, move);
    var c := sys.clients[i];
    if c.Writing? && (move.SaveWrite? || move.WriteLost?) && Commit(sys.kv, c.base, c.values).Some? {
      assert ClientOk(sys.kv, c);
      CommitKeepsFields(sys.kv, c.base, c.values);
      forall j | 0 <= j < |next.clients| && j != i ensures ClientOk(next.kv, next.clients[j]) {
        OthersUnaffected(sys.kv, next.kv, sys.clients[j]);
      }
    }
  }

  /**
   Identity agreement.  In every interleaving of bootstrapping servers and other
   savers, with lost replies and failures anywhere, no nonempty field other than
   `known_hosts` changes or disappears, and all servers that complete bootstrap
   hold the stored SSH host key.
   */
  lemma {:induction false} IdentityAgreement(sys: System, turns: seq<Turn>, i: nat, j: nat)
    requires Inv(sys)
    ensures Inv(Run(sys, turns)) && FieldsKept(sys.kv.data, Run(sys, turns).kv.data)
    ensures var end := Run(sys, turns);
            i < |end.clients| && j < |end.clients| && end.clients[i].Ready? && end.clients[j].Ready? ==>
              && Field(end.clients[i].held, "ssh_host_key") == Field(end.kv.data, "ssh_host_key")
              && Field(end.clients[j].held, "ssh_host_key") == Field(end.kv.data, "ssh_host_key")
    decreases |turns|
  {
    if turns != [] {
      var t := turns[0];
      var next := if t.client < |sys.clients| then Step(sys, t.client, t.move) else sys;
      if t.client < |sys.clients| { StepKeepsInv(sys, t.client, t.move); }
      IdentityAgreement(next, turns[1..], i, j);
    }
  }

  /** Any number of servers and savers starting against an empty or stored bundle satisfies the invariant. */
  lemma StartsOk(sys: System)
    requires sys.kv.Valid() && forall c | c in sys.clients :: c.Booting? || c.Pending?
    ensures Inv(sys)
  {
  }

  /** Bootstrap completes: alone against an empty store with the generated bundle, against a stored one with the stored. */
  lemma BootstrapCompletes(sys: System, i: nat, generated: Bundle)
    requires i < |sys.clients| && sys.clients[i] == Booting && sys.kv.Valid() && Field(generated, "ssh_host_key") != []
    ensures sys.kv.version == 0 ==>
              Run(sys, [Turn(i, Load(generated)), Turn(i, SaveRead), Turn(i, SaveWrite)]) ==
              System(KV(1, generated), sys.clients[i := Ready(generated)])
    ensures sys.kv.version > 0 && Field(sys.kv.data, "ssh_host_key") != [] ==>
              Run(sys, [Turn(i, Load(generated))]) == sys.(clients := sys.clients[i := Ready(sys.kv.data)])
  {
    hide Run, Step;
    var load, read, write := Turn(i, Load(generated)), Turn(i, SaveRead), Turn(i, SaveWrite);
    RunOne(sys, load);
    LoadStep(sys, i, generated);
    if sys.kv.version == 0 {
      var a := Step(sys, i, Load(generated));
      RunThree(sys, load, read, write);
      ReadStep(a, i, generated);
      var b := Step(a, i, SaveRead);
      WriteStep(b, i, generated, sys.kv);
      assert sys.clients[i := Generated(generated)][i := Writing(generated, sys.kv, true)][i := Ready(generated)] ==
             sys.clients[i := Ready(generated)];
    }
  }

  lemma LoadStep(sys: System, i: nat, generated: Bundle)
    requires i < |sys.clients| && sys.clients[i] == Booting && Field(generated, "ssh_host_key") != []
    ensures sys.kv.version == 0 ==> Step(sys, i, Load(generated)) == sys.(clients := sys.clients[i := Generated(generated)])
    ensures sys.kv.version > 0 && Field(sys.kv.data, "ssh_host_key") != [] ==>
              Step(sys, i, Load(generated)) == sys.(clients := sys.clients[i := Ready(sys.kv.data)])
  {
  }

  lemma ReadStep(sys: System, i: nat, own: Bundle)
    requires i < |sys.clients| && sys.clients[i] == Generated(own) && sys.kv.data == map[]
    ensures Step(sys, i, SaveRead) == sys.(clients := sys.clients[i := Writing(own, sys.kv, true)])
  {
    assert forall key | key in own :: !Conflicts(sys.kv.data, own, key);
  }

  lemma WriteStep(sys: System, i: nat, own: Bundle, base: KV)
    requires i < |sys.clients| && sys.clients[i] == Writing(own, base, true) && base == sys.kv && base.data == map[]
    requires Field(own, "ssh_host_key") != []
    ensures Step(sys, i, SaveWrite) == System(KV(base.version + 1, own), sys.clients[i := Ready(own)])
  {
    assert base.data + own == own && "ssh_host_key" in own;
  }

  lemma {:induction false} RunThree(sys: System, a: Turn, b: Turn, c: Turn)
    requires a.client < |sys.clients| && b.client < |sys.clients| && c.client < |sys.clients|
    ensures Run(sys, [a, b, c]) == Step(Step(Step(sys, a.client, a.move), b.client, b.move), c.client, c.move)
  {
    hide Step;
    assert [a, b, c][1..] == [b, c] && [b, c][1..] == [c];
    var next := Step(sys, a.client, a.move);
    StepKeepsSize(sys, a);
    StepKeepsSize(next, b);
    RunOne(Step(next, b.client, b.move), c);
  }

  lemma StepKeepsSize(sys: System, turn: Turn)
    requires turn.client < |sys.clients|
    ensures |Step(sys, turn.client, turn.move).clients| == |sys.clients|
  {
  }

  lemma {:induction false} RunOne(sys: System, turn: Turn)
    requires turn.client < |sys.clients|
    ensures Run(sys, [turn]) == Step(sys, turn.client, turn.move)
  {
    hide Step;
    assert [turn][1..] == [];
  }

  /** A stored bundle without a host key stops the server; it is never overwritten by a new identity. */
  lemma NoKeyNoServer(sys: System, i: nat, generated: Bundle)
    requires i < |sys.clients| && sys.clients[i] == Booting && sys.kv.version > 0 && Field(sys.kv.data, "ssh_host_key") == []
    ensures Step(sys, i, Load(generated)) == sys.(clients := sys.clients[i := Stopped])
  {
  }
}
