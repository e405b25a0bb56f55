/**
 * The command engine of the vCluster booter daemon: it authenticates a request, then
 * creates, destroys or lists virtual clusters through the `onevnet`/`onevm` tools, and keeps
 * the clusters it created in a registry keyed by a counter.
 */
module Engine {
  import opened Wrappers
  import opened Text
  import opened Types
  import opened Synthesis
  import opened Status

  /**
   * The `onevnet`/`onevm` command line tools. `respond` gives what a call prints, depending
   * on the calls made before it; None when launching the tool raises. `history` is every
   * call made so far, in order.
   */
  class Backend {
    const respond: (seq<Call>, Call) -> Option<string>
    var history: seq<Call>

    constructor (respond: (seq<Call>, Call) -> Option<string>)
      ensures this.respond == respond && history == []
    {
      this.respond := respond;
      history := [];
    }

    /** Run one tool invocation and collect what it prints. */
    method Invoke(c: Call) returns (out: Option<string>)
      modifies this
      ensures history == old(history) + [c]
      ensures out == respond(old(history), c)
    {
      out := respond(history, c);
      history := history + [c];
    }
  }

  /** A network the request asks to be provisioned (any type other than "private" is not). */
  predicate IsPrivate(s: NetSetting)
  {
    s.kind == "private"
  }

  /** Calls that remove something from the backend. */
  predicate IsDelete(c: Call)
  {
    c.VmDelete? || c.VnetDelete?
  }

  /**
   * Each call of `calls`, issued in order after `h0`, can be launched: the tool starts for
   * every one of them.
   */
  predicate Launches(respond: (seq<Call>, Call) -> Option<string>, h0: seq<Call>, calls: seq<Call>)
  {
    forall i :: 0 <= i < |calls| ==> respond(h0 + calls[..i], calls[i]).Some?
  }

  /** Calls that launch in order also launch when only the first of them are issued. */
  lemma LaunchesPrefix(respond: (seq<Call>, Call) -> Option<string>, h0: seq<Call>, calls: seq<Call>, n: nat)
    requires n <= |calls| && Launches(respond, h0, calls)
    ensures Launches(respond, h0, calls[..n])
  {
    forall i | 0 <= i < n
      ensures respond(h0 + calls[..n][..i], calls[..n][i]).Some?
    {
      assert calls[..n][..i] == calls[..i];
    }
  }

  /** Two runs of calls launch one after the other exactly when their concatenation launches. */
  lemma LaunchesConcat(respond: (seq<Call>, Call) -> Option<string>, h0: seq<Call>, a: seq<Call>, b: seq<Call>)
    ensures Launches(respond, h0, a + b) <==> Launches(respond, h0, a) && Launches(respond, h0 + a, b)
  {
    forall i | 0 <= i < |a|
      ensures (a + b)[..i] == a[..i] && (a + b)[i] == a[i]
    {
    }
    forall i | 0 <= i < |b|
      ensures h0 + (a + b)[..|a| + i] == (h0 + a) + b[..i] && (a + b)[|a| + i] == b[i]
    {
      assert (a + b)[..|a| + i] == a + b[..i];
    }
    if Launches(respond, h0, a) && Launches(respond, h0 + a, b) {
      forall i | 0 <= i < |a + b|
        ensures respond(h0 + (a + b)[..i], (a + b)[i]).Some?
      {
        if i >= |a| {
          assert respond((h0 + a) + b[..i - |a|], b[i - |a|]).Some?;
        }
      }
    }
    if Launches(respond, h0, a + b) {
      forall i | 0 <= i < |b|
        ensures respond((h0 + a) + b[..i], b[i]).Some?
      {
        assert respond(h0 + (a + b)[..|a| + i], (a + b)[|a| + i]).Some?;
      }
    }
  }

  /** One more call launches after a run of calls exactly when the run launches and then the call does. */
  lemma LaunchesNext(respond: (seq<Call>, Call) -> Option<string>, h0: seq<Call>, calls: seq<Call>, c: Call)
    ensures Launches(respond, h0, calls + [c]) <==> Launches(respond, h0, calls) && respond(h0 + calls, c).Some?
  {
    LaunchesConcat(respond, h0, calls, [c]);
    assert (h0 + calls) + [c][..0] == h0 + calls;
  }

  /** A call that does not launch after the calls before it stops every run that continues through it. */
  lemma LaunchFails(respond: (seq<Call>, Call) -> Option<string>, h0: seq<Call>, done: seq<Call>, c: Call, calls: seq<Call>)
    requires done + [c] <= calls && respond(h0 + done, c).None?
    ensures !Launches(respond, h0, calls)
  {
    assert calls[..|done|] == done && calls[|done|] == c;
  }

  /**
   * The outcome of the first `n` passes of a loop that records what each pass yields and
   * stops at the first pass that fails: the records in order, or that failure.
   */
  function Collect<T>(pass: nat -> Result<T>, n: nat): (r: Result<seq<T>>)
    ensures r.Ok? ==> |r.value| == n
  {
    if n == 0 then Ok([])
    else
      match Collect(pass, n - 1)
      case Err(f) => Err(f)
      case Ok(xs) =>
        match pass(n - 1)
        case Err(f) => Err(f)
        case Ok(x) => Ok(xs + [x])
  }

  /** The loop succeeds exactly when every pass does, and then it records what each pass yields, in order. */
  lemma {:induction false} CollectMeaning<T>(pass: nat -> Result<T>, n: nat)
    ensures Collect(pass, n).Ok? <==> forall k :: 0 <= k < n ==> pass(k).Ok?
    ensures Collect(pass, n).Ok? ==> (|Collect(pass, n).value| == n
      && forall k :: 0 <= k < n ==> Collect(pass, n).value[k] == pass(k).value)
  {
    if n > 0 {
      CollectMeaning(pass, n - 1);
    }
  }

  /** A loop that fails does so with the failure of its first failing pass. */
  lemma {:induction false} CollectFailure<T>(pass: nat -> Result<T>, n: nat)
    requires Collect(pass, n).Err?
    ensures exists k :: 0 <= k < n && (forall j :: 0 <= j < k ==> pass(j).Ok?) && pass(k) == Err(Collect(pass, n).failure)
  {
    if Collect(pass, n - 1).Err? {
      CollectFailure(pass, n - 1);
    } else {
      CollectMeaning(pass, n - 1);
    }
  }

  /** Once a pass fails, the passes after it do not change the outcome. */
  lemma {:induction false} CollectStops<T>(pass: nat -> Result<T>, n: nat, m: nat)
    requires n <= m && Collect(pass, n).Err?
    ensures Collect(pass, m) == Collect(pass, n)
    decreases m
  {
    if n < m {
      CollectStops(pass, n, m - 1);
    }
  }

  /** The answer to a create whose VM template names no root disk. */
  const NoRootReply := Reply(501, "Cannot find the root device", [])

  /** A destroy whose VM deletes stopped: the calls made are a prefix of the destroy's, which do not all launch. */
  lemma DestroyStopsInVms(respond: (seq<Call>, Call) -> Option<string>, h0: seq<Call>, h: seq<Call>, c: Cluster)
    requires h0 <= h && h[|h0|..] <= VmDeletes(c.vms) && !Launches(respond, h0, VmDeletes(c.vms))
    ensures h[|h0|..] <= DestroyCalls(c) && !Launches(respond, h0, DestroyCalls(c))
  {
    DestroyLaunches(respond, h0, c);
  }

  /** The last call of `h` did not launch. */
  predicate LastCallFailed(respond: (seq<Call>, Call) -> Option<string>, h: seq<Call>)
  {
    |h| > 0 && respond(h[..|h| - 1], h[|h| - 1]).None?
  }

  /** A destroy's calls all launch exactly when its VM deletes do and then its network deletes do. */
  lemma DestroyLaunches(respond: (seq<Call>, Call) -> Option<string>, h0: seq<Call>, c: Cluster)
    ensures Launches(respond, h0, DestroyCalls(c))
      <==> Launches(respond, h0, VmDeletes(c.vms)) && Launches(respond, h0 + VmDeletes(c.vms), VnetDeletes(c.networks))
  {
    LaunchesConcat(respond, h0, VmDeletes(c.vms), VnetDeletes(c.networks));
  }

  /** Calls `h` that extend `h0 + a` by a prefix of `b` extend `h0` by a prefix of `a + b`. */
  lemma PrefixAfter(h0: seq<Call>, a: seq<Call>, b: seq<Call>, h: seq<Call>)
    requires h0 + a <= h && h[|h0 + a|..] <= b
    ensures h0 <= h && h[|h0|..] <= a + b
    ensures h == h0 + a + b ==> h == h0 + (a + b)
  {
    var rest := h[|h0 + a|..];
    assert h == h0 + a + rest;
    assert h[|h0|..] == a + rest;
  }

  /** Calls issued in four stretches after `h0`: the history after all of them. */
  lemma HistoryGrows(h0: seq<Call>, a: seq<Call>, b: seq<Call>, c: seq<Call>, d: seq<Call>)
    ensures h0 + a + b + c + d == h0 + (a + b + c + d)
  {
    assert h0 + a + b == h0 + (a + b);
    assert h0 + (a + b) + c == h0 + (a + b + c);
  }

  /** No requested network is private. */
  predicate AllPublic(networks: seq<(string, NetSetting)>)
  {
    forall k :: 0 <= k < |networks| ==> !IsPrivate(networks[k].1)
  }

  /** A cluster of public networks only and no VM: creating it calls no tool, so it cannot fail. */
  predicate NeedsNoBackend(spec: ClusterSpec)
  {
    VmCount(spec.vmNR) == 0 && AllPublic(spec.networks)
  }

  /** `h` extends `h0` by calls none of which removes anything. */
  predicate NoDeletesSince(h0: seq<Call>, h: seq<Call>)
  {
    h0 <= h && forall i :: |h0| <= i < |h| ==> !IsDelete(h[i])
  }

  /** `h` is `h0` followed by the first calls of `plan`, possibly all of them. */
  predicate IssuedPrefix(h0: seq<Call>, h: seq<Call>, plan: seq<Call>)
  {
    h0 <= h && h[|h0|..] <= plan
  }

  /** A history that grew by a prefix of `calls`, none of them a delete, grew without deletes. */
  lemma IssuedNoDeletes(h0: seq<Call>, h: seq<Call>, calls: seq<Call>)
    requires IssuedPrefix(h0, h, calls)
    requires forall i :: 0 <= i < |calls| ==> !IsDelete(calls[i])
    ensures NoDeletesSince(h0, h)
  {
    forall i | |h0| <= i < |h|
      ensures !IsDelete(h[i])
    {
      assert h[i] == h[|h0|..][i - |h0|];
    }
  }

  /** `h` extends `h0` by `onevm show` calls only. */
  predicate ShowsOnly(h0: seq<Call>, h: seq<Call>)
  {
    h0 <= h && forall i :: |h0| <= i < |h| ==> h[i].VmShow?
  }

  /** Appending the shows of some VMs adds show calls only. */
  lemma ShowCallsAreShows(h0: seq<Call>, vms: seq<VmInstance>)
    ensures ShowsOnly(h0, h0 + ShowCalls(vms))
  {
  }

  /** Every VM carries a status the translation can give. */
  predicate StatusesKnown(vms: seq<VmInstance>)
  {
    forall k :: 0 <= k < |vms| ==> KnownStatus(vms[k].status)
  }

  /** The number of VMs a create builds: `range(int(vmNR))` is empty for a negative count. */
  function VmCount(vmNR: int): nat
  {
    if vmNR < 0 then 0 else vmNR
  }

  /** The NICs of every network name of `t` resolve. */
  predicate NicsResolve(t: VmTemplate, networks: seq<(string, NetSetting)>, nameMap: map<string, string>)
  {
    forall j :: 0 <= j < |t.networkNames| ==> NicFor(networks, nameMap, t.networkNames[j]).Some?
  }

  /**
   * `vm` was built from template `t`: its name, memory and `name:target` disk strings, and
   * per NIC the network it attaches to and, where the request fixed one, its address.
   */
  predicate VmShape(t: VmTemplate, networks: seq<(string, NetSetting)>, nameMap: map<string, string>, vm: VmInstance)
  {
    vm.name == t.name && vm.memSize == t.memory
    && |vm.disks| == |t.disks|
    && (forall j :: 0 <= j < |t.disks| ==> vm.disks[j] == t.disks[j].diskName + ":" + t.disks[j].diskTarget)
    && NicsResolve(t, networks, nameMap)
    && |vm.networkNames| == |t.networkNames| && |vm.ips| == |t.networkNames|
    && (forall j :: 0 <= j < |t.networkNames| ==>
          vm.networkNames[j] == NicFor(networks, nameMap, t.networkNames[j]).value.network)
    && (forall j :: 0 <= j < |t.networkNames| && NicIp(NicFor(networks, nameMap, t.networkNames[j]).value) != NotAvailable ==>
          vm.ips[j] == NicIp(NicFor(networks, nameMap, t.networkNames[j]).value))
  }

  /** Every IP slot of `vm` is still what its NIC entry fixed ("N/A" for a private network). */
  predicate IpsAsConfigured(t: VmTemplate, networks: seq<(string, NetSetting)>, nameMap: map<string, string>, vm: VmInstance)
  {
    NicsResolve(t, networks, nameMap) && |vm.ips| == |t.networkNames|
    && forall j :: 0 <= j < |t.networkNames| ==> vm.ips[j] == NicIp(NicFor(networks, nameMap, t.networkNames[j]).value)
  }

  /**
   * Each IP slot of `vm` whose NIC the request gave no address holds the VM's lease on
   * that network, as listed in `infos`.
   */
  predicate LeasesFilled(t: VmTemplate, networks: seq<(string, NetSetting)>, nameMap: map<string, string>,
                         vm: VmInstance, infos: map<string, seq<Lease>>)
  {
    NicsResolve(t, networks, nameMap) && |vm.networkNames| == |t.networkNames| == |vm.ips|
    && forall j :: 0 <= j < |t.networkNames| && NicIp(NicFor(networks, nameMap, t.networkNames[j]).value) == NotAvailable ==>
         vm.networkNames[j] in infos && vm.ips[j] == LeaseIp(infos[vm.networkNames[j]], vm.id)
  }

  /** The fill-in puts the VM's own lease into exactly the slots the request left open. */
  lemma LeasesFilledByFill(t: VmTemplate, networks: seq<(string, NetSetting)>, nameMap: map<string, string>,
                           vm: VmInstance, infos: map<string, seq<Lease>>, status: string)
    requires VmShape(t, networks, nameMap, vm) && IpsAsConfigured(t, networks, nameMap, vm) && Fillable(vm, infos)
    ensures LeasesFilled(t, networks, nameMap, vm.(ips := FilledIps(vm, infos), status := status), infos)
  {
    FillOnlyOpenSlots(vm, infos);
  }

  /** Filling the open IP slots keeps everything a VM took from its template. */
  lemma ShapeKeptByFill(t: VmTemplate, networks: seq<(string, NetSetting)>, nameMap: map<string, string>,
                        vm: VmInstance, infos: map<string, seq<Lease>>)
    requires VmShape(t, networks, nameMap, vm) && Fillable(vm, infos)
    ensures VmShape(t, networks, nameMap, vm.(ips := FilledIps(vm, infos)))
  {
    FillOnlyOpenSlots(vm, infos);
  }

  /**
   * What the reply to a create call makes of the new object's id: 420 when the tool could
   * not be launched, `refused` when the reply does not start with "ID:", a fault when the
   * id token is missing, and otherwise that token.
   */
  function CreatedId(out: Option<string>, refused: int): Result<string>
  {
    match out
    case None => Err(EngineError(420))
    case Some(text) =>
      match CheckReply(text)
      case NotAnId => Err(EngineError(refused))
      case NoIdToken => Err(Fault)
      case IdToken(token) => Ok(token)
  }

  /** What the reply to `onevm create` makes of the new VM's id: `int()` of the token, a fault if it is no number. */
  function VmIdOf(out: Option<string>): Result<int>
  {
    match CreatedId(out, 421)
    case Err(f) => Err(f)
    case Ok(token) =>
      match ParseInt(token)
      case None => Err(Fault)
      case Some(id) => Ok(id)
  }

  /**
   * A reply `ID: <token>` followed by newlines gives that token; a tool that cannot be
   * launched gives 420, and a reply that does not start with "ID:" gives `refused`.
   */
  lemma CreatedIdAnswers(token: string, newlines: string, refused: int, text: string)
    requires ' ' !in token && '\n' !in token
    requires forall k :: 0 <= k < |newlines| ==> newlines[k] == '\n'
    ensures CreatedId(Some("ID: " + token + newlines), refused) == Ok(token)
    ensures CreatedId(None, refused) == Err(EngineError(420))
    ensures Split(Strip(text, {'\n'}), ' ')[0] != "ID:" ==> CreatedId(Some(text), refused) == Err(EngineError(refused))
  {
    CheckReplyAccepts(token, newlines);
  }

  /** A reply `ID: <n>` followed by newlines gives the VM id n. */
  lemma VmIdAnswers(id: int, newlines: string)
    requires forall k :: 0 <= k < |newlines| ==> newlines[k] == '\n'
    ensures VmIdOf(Some("ID: " + IntToString(id) + newlines)) == Ok(id)
  {
    RenderingCharacters(id);
    assert '\n' in Whitespace;
    CreatedIdAnswers(IntToString(id), newlines, 421, "");
    ParseIntToString(id);
  }

  /** The `onevm create` call for template `t`, if its root device is found and its NICs resolve. */
  function VmCallOf(t: VmTemplate, networks: seq<(string, NetSetting)>, nameMap: map<string, string>): seq<Call>
  {
    if RootDevice(t.disks) != "" && NicsResolve(t, networks, nameMap) then
      [VmCreate(t.name, t.memory, RootDevice(t.disks), DiskLines(t.disks), NicLines(networks, nameMap, t.networkNames))]
    else []
  }

  /**
   * What one pass of the VM loop yields for template `t` when the calls made so far are `h`:
   * the 501 outcome without a root device, a fault when a NIC does not resolve, otherwise
   * what the reply to its `onevm create` makes of the VM's id.
   */
  function VmReply(t: VmTemplate, networks: seq<(string, NetSetting)>, nameMap: map<string, string>,
                   respond: (seq<Call>, Call) -> Option<string>, h: seq<Call>): Result<VmInstance>
  {
    if RootDevice(t.disks) == "" then Err(NoRootDevice)
    else if !NicsResolve(t, networks, nameMap) then Err(Fault)
    else
      var nics := NicLines(networks, nameMap, t.networkNames);
      match VmIdOf(respond(h, VmCallOf(t, networks, nameMap)[0]))
      case Err(f) => Err(f)
      case Ok(id) => Ok(VmInstance(id, t.name, t.memory, DiskEntries(t.disks), NicNetworks(nics), NicIps(nics), NotAvailable))
  }

  /** The `onevm create` calls of the first `n` passes of the VM loop. */
  function VmCalls(spec: ClusterSpec, nameMap: map<string, string>, n: nat): seq<Call>
  {
    if n == 0 then []
    else
      var call := if n - 1 < |spec.vmTemplates| then VmCallOf(spec.vmTemplates[n - 1], spec.networks, nameMap) else [];
      VmCalls(spec, nameMap, n - 1) + call
  }

  /**
   * What pass `k` of the VM loop yields when the passes before it succeeded after the calls
   * `h1`: a fault when there is no template `k`, otherwise the VM of template `k`.
   */
  function VmPass(spec: ClusterSpec, nameMap: map<string, string>, respond: (seq<Call>, Call) -> Option<string>,
                  h1: seq<Call>, k: nat): Result<VmInstance>
  {
    if k >= |spec.vmTemplates| then Err(Fault)
    else VmReply(spec.vmTemplates[k], spec.networks, nameMap, respond, h1 + VmCalls(spec, nameMap, k))
  }

  /** The passes of the VM loop, started after the calls `h1`. */
  function VmPasses(spec: ClusterSpec, nameMap: map<string, string>, respond: (seq<Call>, Call) -> Option<string>,
                    h1: seq<Call>): nat -> Result<VmInstance>
  {
    (k: nat) => VmPass(spec, nameMap, respond, h1, k)
  }

  /** The calls of fewer passes of the VM loop come first among those of more. */
  lemma {:induction false} VmCallsPrefix(spec: ClusterSpec, nameMap: map<string, string>, n: nat, m: nat)
    requires n <= m
    ensures VmCalls(spec, nameMap, n) <= VmCalls(spec, nameMap, m)
    decreases m
  {
    if n < m {
      VmCallsPrefix(spec, nameMap, n, m - 1);
    }
  }

  /** Every call of the VM loop is an `onevm create`. */
  lemma {:induction false} VmCallsCreate(spec: ClusterSpec, nameMap: map<string, string>, m: nat)
    ensures forall i :: 0 <= i < |VmCalls(spec, nameMap, m)| ==> VmCalls(spec, nameMap, m)[i].VmCreate?
    decreases m
  {
    if m > 0 {
      VmCallsCreate(spec, nameMap, m - 1);
    }
  }

  /** A first template without a root device stops the VM loop at its first pass, before any call. */
  lemma NoRootStopsVms(spec: ClusterSpec, nameMap: map<string, string>, respond: (seq<Call>, Call) -> Option<string>,
                       h1: seq<Call>)
    requires VmCount(spec.vmNR) >= 1 && |spec.vmTemplates| >= 1 && RootDevice(spec.vmTemplates[0].disks) == ""
    ensures Collect(VmPasses(spec, nameMap, respond, h1), VmCount(spec.vmNR)) == Err(NoRootDevice)
    ensures forall k: nat :: 1 <= k ==> Collect(VmPasses(spec, nameMap, respond, h1), k).Err?
    ensures VmCalls(spec, nameMap, 1) == []
  {
    var passes := VmPasses(spec, nameMap, respond, h1);
    assert passes(0) == VmPass(spec, nameMap, respond, h1, 0) == Err(NoRootDevice);
    assert Collect(passes, 1) == Err(NoRootDevice);
    forall k: nat | 1 <= k
      ensures Collect(passes, k).Err?
    {
      CollectStops(passes, 1, k);
    }
    CollectStops(passes, 1, VmCount(spec.vmNR));
  }

  /**
   * A VM the loop records for template `t` has the template's name, memory and disks, the
   * network and fixed address of each NIC, no status yet, and the id of the reply to its
   * `onevm create` call; it exists exactly when the root device is found, the NICs resolve
   * and that reply carries a numeric id.
   */
  lemma VmReplyMeaning(t: VmTemplate, networks: seq<(string, NetSetting)>, nameMap: map<string, string>,
                       respond: (seq<Call>, Call) -> Option<string>, h: seq<Call>)
    ensures VmReply(t, networks, nameMap, respond, h).Ok? <==> (RootDevice(t.disks) != "" && NicsResolve(t, networks, nameMap)
      && VmIdOf(respond(h, VmCallOf(t, networks, nameMap)[0])).Ok?)
    ensures VmReply(t, networks, nameMap, respond, h).Ok? ==> (var vm := VmReply(t, networks, nameMap, respond, h).value;
      VmShape(t, networks, nameMap, vm) && IpsAsConfigured(t, networks, nameMap, vm) && vm.status == NotAvailable
      && vm.id == VmIdOf(respond(h, VmCallOf(t, networks, nameMap)[0])).value)
    ensures RootDevice(t.disks) == "" ==> VmReply(t, networks, nameMap, respond, h) == Err(NoRootDevice)
    ensures RootDevice(t.disks) != "" && NicsResolve(t, networks, nameMap) ==>
      (var out := respond(h, VmCallOf(t, networks, nameMap)[0]);
       (out.None? ==> VmReply(t, networks, nameMap, respond, h) == Err(EngineError(420)))
       && (out.Some? && CheckReply(out.value).NotAnId? ==> VmReply(t, networks, nameMap, respond, h) == Err(EngineError(421))))
  {
  }

  /**
   * A VM loop that completes records one VM per template index below the count: its
   * template has a root device, the VM is shaped by it with the addresses the request
   * fixed, and its id is the one the reply to its `onevm create` call gave.
   */
  lemma VmsBuilt(spec: ClusterSpec, nameMap: map<string, string>, respond: (seq<Call>, Call) -> Option<string>,
                 h1: seq<Call>)
    requires Collect(VmPasses(spec, nameMap, respond, h1), VmCount(spec.vmNR)).Ok?
    ensures (var vms := Collect(VmPasses(spec, nameMap, respond, h1), VmCount(spec.vmNR)).value;
      |vms| == VmCount(spec.vmNR) <= |spec.vmTemplates|
      && forall k :: 0 <= k < |vms| ==> (RootDevice(spec.vmTemplates[k].disks) != ""
        && VmShape(spec.vmTemplates[k], spec.networks, nameMap, vms[k])
        && IpsAsConfigured(spec.vmTemplates[k], spec.networks, nameMap, vms[k])
        && VmCallOf(spec.vmTemplates[k], spec.networks, nameMap) != []
        && VmIdOf(respond(h1 + VmCalls(spec, nameMap, k), VmCallOf(spec.vmTemplates[k], spec.networks, nameMap)[0])).Ok?
        && vms[k].id == VmIdOf(respond(h1 + VmCalls(spec, nameMap, k),
                                       VmCallOf(spec.vmTemplates[k], spec.networks, nameMap)[0])).value))
  {
    var passes := VmPasses(spec, nameMap, respond, h1);
    CollectMeaning(passes, VmCount(spec.vmNR));
    forall k | 0 <= k < VmCount(spec.vmNR)
      ensures RootDevice(spec.vmTemplates[k].disks) != "" && NicsResolve(spec.vmTemplates[k], spec.networks, nameMap)
      ensures passes(k).Ok? && (var vm := passes(k).value;
        VmShape(spec.vmTemplates[k], spec.networks, nameMap, vm)
        && IpsAsConfigured(spec.vmTemplates[k], spec.networks, nameMap, vm)
        && VmIdOf(respond(h1 + VmCalls(spec, nameMap, k), VmCallOf(spec.vmTemplates[k], spec.networks, nameMap)[0])).Ok?
        && vm.id == VmIdOf(respond(h1 + VmCalls(spec, nameMap, k),
                                   VmCallOf(spec.vmTemplates[k], spec.networks, nameMap)[0])).value)
    {
      assert passes(k) == VmPass(spec, nameMap, respond, h1, k);
      VmReplyMeaning(spec.vmTemplates[k], spec.networks, nameMap, respond, h1 + VmCalls(spec, nameMap, k));
    }
  }

  /** The `onevnet show` calls reading back the first `n` networks of `nets`: one per private network, in order. */
  function VnetShows(nets: seq<NetInstance>, n: nat): seq<Call>
  {
    if n == 0 then []
    else
      var call := if n - 1 < |nets| && nets[n - 1].kind == "private" then [VnetShow(nets[n - 1].name)] else [];
      VnetShows(nets, n - 1) + call
  }

  /** The shows for a prefix of the networks come first among those for a longer one. */
  lemma {:induction false} VnetShowsPrefix(nets: seq<NetInstance>, n: nat, m: nat)
    requires n <= m <= |nets|
    ensures VnetShows(nets, n) <= VnetShows(nets, m)
    decreases m
  {
    if n < m {
      VnetShowsPrefix(nets, n, m - 1);
    }
  }

  /** Reading the networks back makes `onevnet show` calls only. */
  lemma {:induction false} VnetShowsAreShows(nets: seq<NetInstance>, n: nat)
    requires n <= |nets|
    ensures forall i :: 0 <= i < |VnetShows(nets, n)| ==> VnetShows(nets, n)[i].VnetShow?
    ensures (forall k :: 0 <= k < n ==> nets[k].kind != "private") ==> VnetShows(nets, n) == []
  {
    if n > 0 {
      VnetShowsAreShows(nets, n - 1);
    }
  }

  /**
   * `netInfoMap` once the first `|leases|` networks of `nets` were read back, `leases[k]`
   * being what was read for network `k`: each private network's name to its leases.
   */
  function LeaseMap(nets: seq<NetInstance>, leases: seq<seq<Lease>>): map<string, seq<Lease>>
    requires |leases| <= |nets|
  {
    if leases == [] then map[]
    else
      var n := |leases| - 1;
      if nets[n].kind == "private" then LeaseMap(nets, leases[..n])[nets[n].name := leases[n]]
      else LeaseMap(nets, leases[..n])
  }

  /**
   * The map holds the names of the private networks read and nothing else, and a name holds
   * the leases read for the last private network of that name.
   */
  lemma {:induction false} LeaseMapMeaning(nets: seq<NetInstance>, leases: seq<seq<Lease>>)
    requires |leases| <= |nets|
    ensures forall name :: name in LeaseMap(nets, leases) <==>
      exists k :: 0 <= k < |leases| && nets[k].kind == "private" && nets[k].name == name
    ensures forall k :: ((0 <= k < |leases| && nets[k].kind == "private"
      && (forall j :: k < j < |leases| && nets[j].kind == "private" ==> nets[j].name != nets[k].name))
      ==> LeaseMap(nets, leases)[nets[k].name] == leases[k])
  {
    if leases != [] {
      var n := |leases| - 1;
      LeaseMapMeaning(nets, leases[..n]);
    }
  }

  /** `vms` with the statuses `statuses`, one per VM. */
  function Refreshed(vms: seq<VmInstance>, statuses: seq<string>): seq<VmInstance>
    requires |statuses| == |vms|
  {
    seq(|vms|, j requires 0 <= j < |vms| => vms[j].(status := statuses[j]))
  }

  /** `vms` once the first `|statuses|` of them carry their new status. */
  function PartlyRefreshed(vms: seq<VmInstance>, statuses: seq<string>): seq<VmInstance>
    requires |statuses| <= |vms|
  {
    Refreshed(vms[..|statuses|], statuses) + vms[|statuses|..]
  }

  /** The `onevm show` calls that refresh the statuses of `vms`, in order. */
  function ShowCalls(vms: seq<VmInstance>): (calls: seq<Call>)
  {
    seq(|vms|, k requires 0 <= k < |vms| => VmShow(vms[k].id))
  }

  /** The show calls of a list: those of each cluster registered below `n`, by ascending id. */
  function ListCalls(m: map<int, Cluster>, n: int): seq<Call>
    decreases n
  {
    if n <= 0 then [] else ListCalls(m, n - 1) + (if n - 1 in m then ShowCalls(m[n - 1].vms) else [])
  }

  /** `r` is `c` with only the status of its VMs changed. */
  predicate SameButStatus(c: Cluster, r: Cluster)
  {
    r.id == c.id && r.vmNR == c.vmNR && r.networks == c.networks && |r.vms| == |c.vms|
    && forall k :: 0 <= k < |c.vms| ==> r.vms[k] == c.vms[k].(status := r.vms[k].status)
  }

  /** The `onevm delete` calls of a destroy, one per VM in order. */
  function VmDeletes(vms: seq<VmInstance>): (calls: seq<Call>)
  {
    if vms == [] then [] else VmDeletes(vms[..|vms| - 1]) + [VmDelete(vms[|vms| - 1].id)]
  }

  /** The `onevnet delete` calls of a destroy: one per network that is not public, in order. */
  function VnetDeletes(nets: seq<NetInstance>): (calls: seq<Call>)
  {
    if nets == [] then []
    else if nets[|nets| - 1].kind == "public" then VnetDeletes(nets[..|nets| - 1])
    else VnetDeletes(nets[..|nets| - 1]) + [VnetDelete(nets[|nets| - 1].id)]
  }

  /** A destroy deletes no network of a cluster whose networks are all public. */
  lemma {:induction false} PublicNetsKept(nets: seq<NetInstance>)
    requires forall k :: 0 <= k < |nets| ==> nets[k].kind == "public"
    ensures VnetDeletes(nets) == []
  {
    if nets != [] {
      PublicNetsKept(nets[..|nets| - 1]);
    }
  }

  /** Every call a complete destroy of `c` makes. */
  function DestroyCalls(c: Cluster): seq<Call>
  {
    VmDeletes(c.vms) + VnetDeletes(c.networks)
  }

  /** The VM deletes are exactly one `VmDelete` per VM, with its id, in order. */
  lemma {:induction false} VmDeletesExact(vms: seq<VmInstance>)
    ensures |VmDeletes(vms)| == |vms|
    ensures forall k :: 0 <= k < |vms| ==> VmDeletes(vms)[k] == VmDelete(vms[k].id)
  {
    if vms != [] {
      VmDeletesExact(vms[..|vms| - 1]);
    }
  }

  /**
   * The network deletes name exactly the networks that are not public: every call is a
   * `VnetDelete` of such a network, and every such network gets one.
   */
  lemma {:induction false} VnetDeletesExact(nets: seq<NetInstance>)
    ensures forall i :: 0 <= i < |VnetDeletes(nets)| ==> (VnetDeletes(nets)[i].VnetDelete?
      && exists k :: 0 <= k < |nets| && nets[k].kind != "public" && nets[k].id == VnetDeletes(nets)[i].netId)
    ensures forall k :: 0 <= k < |nets| && nets[k].kind != "public" ==> VnetDelete(nets[k].id) in VnetDeletes(nets)
  {
    if nets != [] {
      var init := nets[..|nets| - 1];
      VnetDeletesExact(init);
      forall i | 0 <= i < |VnetDeletes(init)|
        ensures exists k :: 0 <= k < |nets| && nets[k].kind != "public" && nets[k].id == VnetDeletes(init)[i].netId
      {
        var k :| 0 <= k < |init| && init[k].kind != "public" && init[k].id == VnetDeletes(init)[i].netId;
        assert nets[k] == init[k];
      }
      forall k | 0 <= k < |nets| - 1 && nets[k].kind != "public"
        ensures VnetDelete(nets[k].id) in VnetDeletes(init)
      {
        assert nets[k] == init[k];
      }
    }
  }

  /** The VM deletes of a prefix of the VMs come first among those of all of them. */
  lemma {:induction false} VmDeletesPrefix(vms: seq<VmInstance>, n: nat)
    requires n <= |vms|
    ensures VmDeletes(vms[..n]) <= VmDeletes(vms)
    decreases |vms|
  {
    if n < |vms| {
      var init := vms[..|vms| - 1];
      assert init[..n] == vms[..n];
      VmDeletesPrefix(init, n);
    } else {
      assert vms[..n] == vms;
    }
  }

  /** The network deletes of a prefix of the networks come first among those of all of them. */
  lemma {:induction false} VnetDeletesPrefix(nets: seq<NetInstance>, n: nat)
    requires n <= |nets|
    ensures VnetDeletes(nets[..n]) <= VnetDeletes(nets)
    decreases |nets|
  {
    if n < |nets| {
      var init := nets[..|nets| - 1];
      assert init[..n] == nets[..n];
      VnetDeletesPrefix(init, n);
    } else {
      assert nets[..n] == nets;
    }
  }

  /** A destroy deletes every VM before it deletes any network. */
  lemma DestroyOrder(c: Cluster)
    ensures forall i, j :: 0 <= i < j < |DestroyCalls(c)| && DestroyCalls(c)[j].VmDelete? ==> DestroyCalls(c)[i].VmDelete?
  {
    VmDeletesExact(c.vms);
    VnetDeletesExact(c.networks);
    var calls := DestroyCalls(c);
    forall j | |c.vms| <= j < |calls|
      ensures calls[j].VnetDelete?
    {
      assert calls[j] == VnetDeletes(c.networks)[j - |c.vms|];
    }
  }

  /** The contents of the registry listed by id, for ids below `n`. */
  function Snapshot(m: map<int, Cluster>, n: int): seq<Cluster>
    decreases n
  {
    if n <= 0 then [] else Snapshot(m, n - 1) + (if n - 1 in m then [m[n - 1]] else [])
  }

  /** The snapshot holds exactly the registered clusters whose ids are below `n`. */
  lemma {:induction false} SnapshotContents(m: map<int, Cluster>, n: int)
    ensures forall c :: c in Snapshot(m, n) <==> exists id :: 0 <= id < n && id in m && m[id] == c
    decreases n
  {
    if n > 0 {
      SnapshotContents(m, n - 1);
    }
  }

  /**
   * `commandEngine`: the registry of created clusters keyed by id, the next id to hand out,
   * the daemon's password, and the SHA-1 hex digest and XML reader it relies on.
   */
  class CommandEngine {
    var clusters: map<int, Cluster>
    var nextId: nat
    const passwd: string
    const sha1: string -> string
    const parseXml: string -> Option<Doc>

    /** Every registered cluster carries its own key as id, and that key was handed out already. */
    predicate Valid()
      reads this
    {
      forall id :: id in clusters ==> 0 <= id < nextId && clusters[id].id == id
    }

    constructor (passwd: string, sha1: string -> string, parseXml: string -> Option<Doc>)
      ensures clusters == map[] && nextId == 0 && Valid()
      ensures this.passwd == passwd && this.sha1 == sha1 && this.parseXml == parseXml
    {
      clusters := map[];
      nextId := 0;
      this.passwd := passwd;
      this.sha1 := sha1;
      this.parseXml := parseXml;
    }

    /** The name a private network is created under, from a fresh random salt. */
    function NetworkUid(name: string, salt: string): string
    {
      name + "-" + sha1(name + "-" + salt)
    }

    /**
     * The network instance a create records for one requested network: a private one under
     * its generated name with the id the backend answered, a public one with id -1.
     */
    function PlannedNet(entry: (string, NetSetting), salt: string, id: string): NetInstance
    {
      if IsPrivate(entry.1) then NetInstance(id, NetworkUid(entry.0, salt), "private", "FIXED", entry.1.address)
      else NetInstance(PublicNetId, "public-vnet", "public", "RANGED", entry.1.address)
    }

    /** `nets` records the first `n` requested networks, in order, each as `PlannedNet` says. */
    predicate NetsPlanned(networks: seq<(string, NetSetting)>, salt: nat -> string, nets: seq<NetInstance>, n: nat)
      requires n <= |networks|
    {
      |nets| == n && forall k {:trigger nets[k]} :: 0 <= k < n ==> nets[k] == PlannedNet(networks[k], salt(k), nets[k].id)
    }

    /** The `onevnet create` call for one requested network, if it is private and its leases exist. */
    function VnetCallOf(entry: (string, NetSetting), vmNR: int, salt: string): seq<Call>
    {
      var leases := Leases(entry.1.address, vmNR);
      if IsPrivate(entry.1) && leases.Some? then [VnetCreate(NetworkUid(entry.0, salt), leases.value)] else []
    }

    /** The `onevnet create` calls for the first `n` requested networks. */
    function VnetCalls(networks: seq<(string, NetSetting)>, vmNR: int, salt: nat -> string, n: nat): seq<Call>
    {
      if n == 0 then []
      else
        var call := if n - 1 < |networks| then VnetCallOf(networks[n - 1], vmNR, salt(n - 1)) else [];
        VnetCalls(networks, vmNR, salt, n - 1) + call
    }

    /** At most one call per network, and it is an `onevnet create`. */
    lemma VnetCallOfShape(entry: (string, NetSetting), vmNR: int, salt: string)
      ensures |VnetCallOf(entry, vmNR, salt)| <= 1
      ensures forall i :: 0 <= i < |VnetCallOf(entry, vmNR, salt)| ==> VnetCallOf(entry, vmNR, salt)[i].VnetCreate?
      ensures !IsPrivate(entry.1) ==> VnetCallOf(entry, vmNR, salt) == []
    {
    }

    /** The calls for fewer networks come first among the calls for more. */
    lemma {:induction false} VnetCallsPrefix(networks: seq<(string, NetSetting)>, vmNR: int, salt: nat -> string, n: nat, m: nat)
      requires n <= m <= |networks|
      ensures VnetCalls(networks, vmNR, salt, n) <= VnetCalls(networks, vmNR, salt, m)
      decreases m
    {
      if n < m {
        VnetCallsPrefix(networks, vmNR, salt, n, m - 1);
      }
    }

    /** All of the calls are `onevnet create` calls, and without private networks there are none. */
    lemma {:induction false} VnetCallsCreate(networks: seq<(string, NetSetting)>, vmNR: int, salt: nat -> string, m: nat)
      requires m <= |networks|
      ensures forall i :: 0 <= i < |VnetCalls(networks, vmNR, salt, m)| ==> VnetCalls(networks, vmNR, salt, m)[i].VnetCreate?
      ensures AllPublic(networks[..m]) ==> VnetCalls(networks, vmNR, salt, m) == []
      decreases m
    {
      if m > 0 {
        VnetCallsCreate(networks, vmNR, salt, m - 1);
        VnetCallOfShape(networks[m - 1], vmNR, salt(m - 1));
        if AllPublic(networks[..m]) {
          assert forall k :: 0 <= k < m ==> networks[..m][k] == networks[k];
        }
      }
    }

    /**
     * What provisioning one requested network yields when the calls made so far are `h`: a
     * public one is recorded as is; a private one without leases is a fault; otherwise the
     * reply to its `onevnet create` decides, its id becoming the network's id.
     */
    function NetReply(entry: (string, NetSetting), vmNR: int, salt: string,
                      respond: (seq<Call>, Call) -> Option<string>, h: seq<Call>): Result<NetInstance>
    {
      if !IsPrivate(entry.1) then Ok(PlannedNet(entry, salt, PublicNetId))
      else if Leases(entry.1.address, vmNR).None? then Err(Fault)
      else
        match CreatedId(respond(h, VnetCallOf(entry, vmNR, salt)[0]), 422)
        case Err(f) => Err(f)
        case Ok(id) => Ok(PlannedNet(entry, salt, id))
    }

    /** What pass `k` of the network loop yields when the passes before it succeeded after the calls `h0`. */
    function NetPass(networks: seq<(string, NetSetting)>, vmNR: int, salt: nat -> string,
                     respond: (seq<Call>, Call) -> Option<string>, h0: seq<Call>, k: nat): Result<NetInstance>
    {
      if k < |networks| then NetReply(networks[k], vmNR, salt(k), respond, h0 + VnetCalls(networks, vmNR, salt, k))
      else Err(Fault)
    }

    /** The passes of the network loop, started after the calls `h0`. */
    function NetPasses(networks: seq<(string, NetSetting)>, vmNR: int, salt: nat -> string,
                       respond: (seq<Call>, Call) -> Option<string>, h0: seq<Call>): nat -> Result<NetInstance>
    {
      (k: nat) => NetPass(networks, vmNR, salt, respond, h0, k)
    }

    /**
     * A network the loop records is the planned one, under the id its `onevnet create`
     * reply gives when it is private; the pass fails with 420 when the tool cannot be
     * launched, with 422 when the reply is not an id, and succeeds on a reply
     * `ID: <token>` followed by newlines.
     */
    lemma NetReplyMeaning(entry: (string, NetSetting), vmNR: int, salt: string,
                          respond: (seq<Call>, Call) -> Option<string>, h: seq<Call>, token: string, newlines: string)
      requires ' ' !in token && '\n' !in token
      requires forall k :: 0 <= k < |newlines| ==> newlines[k] == '\n'
      ensures NetReply(entry, vmNR, salt, respond, h).Ok? ==>
        NetReply(entry, vmNR, salt, respond, h).value == PlannedNet(entry, salt, NetReply(entry, vmNR, salt, respond, h).value.id)
      ensures VnetCallOf(entry, vmNR, salt) != [] ==> (var out := respond(h, VnetCallOf(entry, vmNR, salt)[0]);
        (NetReply(entry, vmNR, salt, respond, h).Ok? ==> NetReply(entry, vmNR, salt, respond, h).value.id == CreatedId(out, 422).value)
        && (out.None? ==> NetReply(entry, vmNR, salt, respond, h) == Err(EngineError(420)))
        && (out.Some? && CheckReply(out.value).NotAnId? ==> NetReply(entry, vmNR, salt, respond, h) == Err(EngineError(422)))
        && (out == Some("ID: " + token + newlines) ==> NetReply(entry, vmNR, salt, respond, h) == Ok(PlannedNet(entry, salt, token))))
    {
      CreatedIdAnswers(token, newlines, 422, "");
    }

    /** One pass of the network loop of `_actionCreate`. */
    method ProvisionNetwork(entry: (string, NetSetting), vmNR: int, salt: string, be: Backend)
      returns (r: Result<NetInstance>)
      modifies be
      ensures be.history == old(be.history) + VnetCallOf(entry, vmNR, salt)
      ensures r == NetReply(entry, vmNR, salt, be.respond, old(be.history))
      ensures !IsPrivate(entry.1) ==> r.Ok?
    {
      if !IsPrivate(entry.1) {
        return Ok(NetInstance(PublicNetId, "public-vnet", "public", "RANGED", entry.1.address));
      }
      var uid := NetworkUid(entry.0, salt);
      var leases := SynthesizeLeases(entry.1.address, vmNR);
      if leases.None? {
        return Err(Fault);
      }
      var out := be.Invoke(VnetCreate(uid, leases.value));
      if out.None? {
        return Err(EngineError(420));
      }
      var ack := CheckReply(out.value);
      if ack.NotAnId? {
        return Err(EngineError(422));
      }
      if ack.NoIdToken? {
        return Err(Fault);
      }
      return Ok(NetInstance(ack.token, uid, "private", "FIXED", entry.1.address));
    }

    /** `networkNameMap` after the first `n` requested networks: each private name to its generated name. */
    function NameMapFor(networks: seq<(string, NetSetting)>, salt: nat -> string, n: nat): map<string, string>
      requires n <= |networks|
    {
      if n == 0 then map[]
      else if IsPrivate(networks[n - 1].1) then
        NameMapFor(networks, salt, n - 1)[networks[n - 1].0 := NetworkUid(networks[n - 1].0, salt(n - 1))]
      else NameMapFor(networks, salt, n - 1)
    }

    /**
     * The map holds every private name among the first `n` networks, and nothing else; each
     * name maps to the generated name of an entry with that name (the last one).
     */
    lemma {:induction false} NameMapForPrefix(networks: seq<(string, NetSetting)>, salt: nat -> string, n: nat)
      requires n <= |networks|
      ensures forall k :: 0 <= k < n && IsPrivate(networks[k].1) ==> networks[k].0 in NameMapFor(networks, salt, n)
      ensures forall name :: name in NameMapFor(networks, salt, n) ==> exists k :: (0 <= k < n && IsPrivate(networks[k].1)
        && networks[k].0 == name && NameMapFor(networks, salt, n)[name] == NetworkUid(name, salt(k)))
    {
      if n > 0 {
        NameMapForPrefix(networks, salt, n - 1);
      }
    }

    /** The map the network loop builds has the meaning `NameMapOf` states. */
    lemma NameMapForMeaning(networks: seq<(string, NetSetting)>, salt: nat -> string)
      ensures NameMapOf(networks, salt, NameMapFor(networks, salt, |networks|))
    {
      NameMapForPrefix(networks, salt, |networks|);
    }

    /** `nameMap` maps each private network name to the generated name of an entry with that name. */
    predicate NameMapOf(networks: seq<(string, NetSetting)>, salt: nat -> string, nameMap: map<string, string>)
    {
      (forall k :: 0 <= k < |networks| && IsPrivate(networks[k].1) ==> networks[k].0 in nameMap)
      && forall name :: name in nameMap ==> exists k :: (0 <= k < |networks| && IsPrivate(networks[k].1)
           && networks[k].0 == name && nameMap[name] == NetworkUid(name, salt(k)))
    }

    /** The bookkeeping of one pass of the network loop: a private network's generated name goes into the map. */
    method RecordName(networks: seq<(string, NetSetting)>, salt: nat -> string, k: nat, nameMap: map<string, string>)
      returns (nameMap': map<string, string>)
      requires k < |networks| && nameMap == NameMapFor(networks, salt, k)
      ensures nameMap' == NameMapFor(networks, salt, k + 1)
    {
      nameMap' := nameMap;
      if IsPrivate(networks[k].1) {
        nameMap' := nameMap[networks[k].0 := NetworkUid(networks[k].0, salt(k))];
      }
    }

    /** One pass of the network loop: record the instance; `h0` is the call history before the loop began. */
    method NetworkStep(networks: seq<(string, NetSetting)>, vmNR: int, salt: nat -> string, k: nat,
                       nets: seq<NetInstance>, ghost h0: seq<Call>, be: Backend)
      returns (r: Result<seq<NetInstance>>)
      requires k < |networks|
      requires Collect(NetPasses(networks, vmNR, salt, be.respond, h0), k) == Ok(nets)
      requires be.history == h0 + VnetCalls(networks, vmNR, salt, k)
      modifies be
      ensures r == Collect(NetPasses(networks, vmNR, salt, be.respond, h0), k + 1)
      ensures be.history == h0 + VnetCalls(networks, vmNR, salt, k + 1)
    {
      var net := ProvisionNetwork(networks[k], vmNR, salt(k), be);
      assert NetPasses(networks, vmNR, salt, be.respond, h0)(k) == net;
      if net.Err? {
        return Err(net.failure);
      }
      return Ok(nets + [net.value]);
    }

    /** A pass of the network loop that fails ends the loop: its outcome and the calls made are final. */
    lemma NetLoopStops(networks: seq<(string, NetSetting)>, vmNR: int, salt: nat -> string,
                       respond: (seq<Call>, Call) -> Option<string>, h0: seq<Call>, h: seq<Call>, k: nat)
      requires k < |networks| && Collect(NetPasses(networks, vmNR, salt, respond, h0), k + 1).Err?
      requires h == h0 + VnetCalls(networks, vmNR, salt, k + 1)
      ensures Collect(NetPasses(networks, vmNR, salt, respond, h0), |networks|)
        == Collect(NetPasses(networks, vmNR, salt, respond, h0), k + 1)
      ensures IssuedPrefix(h0, h, VnetCalls(networks, vmNR, salt, |networks|))
    {
      CollectStops(NetPasses(networks, vmNR, salt, respond, h0), k + 1, |networks|);
      VnetCallsPrefix(networks, vmNR, salt, k + 1, |networks|);
      assert h[|h0|..] == VnetCalls(networks, vmNR, salt, k + 1);
    }

    /** Public networks only: every pass of the network loop succeeds without a call. */
    lemma PublicNetsSucceed(networks: seq<(string, NetSetting)>, vmNR: int, salt: nat -> string,
                            respond: (seq<Call>, Call) -> Option<string>, h0: seq<Call>,
                            r: Result<seq<NetInstance>>, h: seq<Call>)
      requires AllPublic(networks)
      requires r == Collect(NetPasses(networks, vmNR, salt, respond, h0), |networks|)
      requires r.Ok? ==> h == h0 + VnetCalls(networks, vmNR, salt, |networks|)
      ensures r.Ok? && h == h0
      ensures VnetCalls(networks, vmNR, salt, |networks|) == []
    {
      var passes := NetPasses(networks, vmNR, salt, respond, h0);
      forall k | 0 <= k < |networks|
        ensures passes(k).Ok?
      {
        assert passes(k) == NetPass(networks, vmNR, salt, respond, h0, k);
      }
      CollectMeaning(passes, |networks|);
      assert networks[..|networks|] == networks;
      VnetCallsCreate(networks, vmNR, salt, |networks|);
      assert h0 + [] == h0;
    }

    /**
     * A network loop that completes records each requested network as planned; a private
     * one carries the id the reply to its `onevnet create` call gave.
     */
    lemma NetsBuilt(networks: seq<(string, NetSetting)>, vmNR: int, salt: nat -> string,
                    respond: (seq<Call>, Call) -> Option<string>, h0: seq<Call>)
      requires Collect(NetPasses(networks, vmNR, salt, respond, h0), |networks|).Ok?
      ensures (var nets := Collect(NetPasses(networks, vmNR, salt, respond, h0), |networks|).value;
        NetsPlanned(networks, salt, nets, |networks|)
        && forall k :: 0 <= k < |networks| && IsPrivate(networks[k].1) ==> (VnetCallOf(networks[k], vmNR, salt(k)) != []
          && CreatedId(respond(h0 + VnetCalls(networks, vmNR, salt, k), VnetCallOf(networks[k], vmNR, salt(k))[0]), 422).Ok?
          && nets[k].id == CreatedId(respond(h0 + VnetCalls(networks, vmNR, salt, k),
                                             VnetCallOf(networks[k], vmNR, salt(k))[0]), 422).value))
    {
      var passes := NetPasses(networks, vmNR, salt, respond, h0);
      CollectMeaning(passes, |networks|);
      var nets := Collect(passes, |networks|).value;
      forall k | 0 <= k < |networks|
        ensures nets[k] == PlannedNet(networks[k], salt(k), nets[k].id)
        ensures IsPrivate(networks[k].1) ==> (VnetCallOf(networks[k], vmNR, salt(k)) != []
          && CreatedId(respond(h0 + VnetCalls(networks, vmNR, salt, k), VnetCallOf(networks[k], vmNR, salt(k))[0]), 422).Ok?
          && nets[k].id == CreatedId(respond(h0 + VnetCalls(networks, vmNR, salt, k),
                                             VnetCallOf(networks[k], vmNR, salt(k))[0]), 422).value)
      {
        assert passes(k) == NetPass(networks, vmNR, salt, respond, h0, k);
        NetReplyMeaning(networks[k], vmNR, salt(k), respond, h0 + VnetCalls(networks, vmNR, salt, k), "", "");
      }
    }

    /**
     * One pass of the network loop with its bookkeeping: the generated name, the instance,
     * and on a failure the end of the loop; `h0` is the call history before the loop began.
     */
    method NetworkPass(networks: seq<(string, NetSetting)>, vmNR: int, salt: nat -> string, k: nat,
                       nets: seq<NetInstance>, nameMap: map<string, string>, ghost h0: seq<Call>, be: Backend)
      returns (r: Result<seq<NetInstance>>, nameMap': map<string, string>)
      requires k < |networks|
      requires Collect(NetPasses(networks, vmNR, salt, be.respond, h0), k) == Ok(nets)
      requires nameMap == NameMapFor(networks, salt, k)
      requires be.history == h0 + VnetCalls(networks, vmNR, salt, k)
      modifies be
      ensures r.Ok? ==> (r == Collect(NetPasses(networks, vmNR, salt, be.respond, h0), k + 1)
        && nameMap' == NameMapFor(networks, salt, k + 1)
        && be.history == h0 + VnetCalls(networks, vmNR, salt, k + 1))
      ensures r.Err? ==> (r == Collect(NetPasses(networks, vmNR, salt, be.respond, h0), |networks|)
        && IssuedPrefix(h0, be.history, VnetCalls(networks, vmNR, salt, |networks|)))
    {
      nameMap' := RecordName(networks, salt, k, nameMap);
      r := NetworkStep(networks, vmNR, salt, k, nets, h0, be);
      if r.Err? {
        NetLoopStops(networks, vmNR, salt, be.respond, h0, be.history, k);
      }
    }

    /** The first loop of `_actionCreate`: provision the private networks, record all of them. */
    method ProvisionNetworks(spec: ClusterSpec, salt: nat -> string, be: Backend)
      returns (r: Result<seq<NetInstance>>, nameMap: map<string, string>)
      modifies be
      ensures r == Collect(NetPasses(spec.networks, spec.vmNR, salt, be.respond, old(be.history)), |spec.networks|)
      ensures IssuedPrefix(old(be.history), be.history, VnetCalls(spec.networks, spec.vmNR, salt, |spec.networks|))
      ensures r.Ok? ==> be.history == old(be.history) + VnetCalls(spec.networks, spec.vmNR, salt, |spec.networks|)
      ensures r.Ok? ==> nameMap == NameMapFor(spec.networks, salt, |spec.networks|)
    {
      var nets: seq<NetInstance> := [];
      nameMap := map[];
      for k := 0 to |spec.networks|
        invariant Collect(NetPasses(spec.networks, spec.vmNR, salt, be.respond, old(be.history)), k) == Ok(nets)
        invariant be.history == old(be.history) + VnetCalls(spec.networks, spec.vmNR, salt, k)
        invariant nameMap == NameMapFor(spec.networks, salt, k)
      {
        var next;
        next, nameMap := NetworkPass(spec.networks, spec.vmNR, salt, k, nets, nameMap, old(be.history), be);
        if next.Err? {
          return next, nameMap;
        }
        nets := next.value;
      }
      assert be.history[|old(be.history)|..] == VnetCalls(spec.networks, spec.vmNR, salt, |spec.networks|);
      return Ok(nets), nameMap;
    }

    /**
     * One pass of the VM loop of `_actionCreate`: disks, root device, NICs, then
     * `onevm create` and the check of its reply.
     */
    method ProvisionVm(t: VmTemplate, networks: seq<(string, NetSetting)>, nameMap: map<string, string>, be: Backend)
      returns (r: Result<VmInstance>)
      modifies be
      ensures be.history == old(be.history) + VmCallOf(t, networks, nameMap)
      ensures r == VmReply(t, networks, nameMap, be.respond, old(be.history))
      ensures r == Err(NoRootDevice) <==> RootDevice(t.disks) == ""
      ensures r.Ok? ==> (VmShape(t, networks, nameMap, r.value) && IpsAsConfigured(t, networks, nameMap, r.value)
        && r.value.status == NotAvailable)
    {
      var entries, lines, root := SynthesizeDisks(t.disks);
      if root == "" {
        return Err(NoRootDevice);
      }
      var ok, nics, names, ips := ResolveNics(t.networkNames, networks, nameMap);
      if !ok {
        return Err(Fault);
      }
      var out := be.Invoke(VmCreate(t.name, t.memory, root, lines, nics));
      if out.None? {
        return Err(EngineError(420));
      }
      var ack := CheckReply(out.value);
      if ack.NotAnId? {
        return Err(EngineError(421));
      }
      if ack.NoIdToken? {
        return Err(Fault);
      }
      var id := ParseInt(ack.token);
      if id.None? {
        return Err(Fault);
      }
      return Ok(VmInstance(id.value, t.name, t.memory, entries, names, ips, NotAvailable));
    }

    /** One pass of the VM loop, with the bookkeeping; `h1` is the call history before the loop began. */
    method VmStep(spec: ClusterSpec, nameMap: map<string, string>, k: nat, vms: seq<VmInstance>,
                  ghost h1: seq<Call>, be: Backend) returns (r: Result<seq<VmInstance>>)
      requires Collect(VmPasses(spec, nameMap, be.respond, h1), k) == Ok(vms)
      requires be.history == h1 + VmCalls(spec, nameMap, k)
      modifies be
      ensures r == Collect(VmPasses(spec, nameMap, be.respond, h1), k + 1)
      ensures be.history == h1 + VmCalls(spec, nameMap, k + 1)
    {
      if k >= |spec.vmTemplates| {
        return Err(Fault);
      }
      var vm := ProvisionVm(spec.vmTemplates[k], spec.networks, nameMap, be);
      assert VmPasses(spec, nameMap, be.respond, h1)(k) == vm;
      if vm.Err? {
        return Err(vm.failure);
      }
      return Ok(vms + [vm.value]);
    }

    /**
     * The VM loop of `_actionCreate`: one VM per template index below `vmNR`, a fault when
     * the templates run out first.
     */
    method ProvisionVms(spec: ClusterSpec, nameMap: map<string, string>, be: Backend)
      returns (r: Result<seq<VmInstance>>)
      modifies be
      ensures r == Collect(VmPasses(spec, nameMap, be.respond, old(be.history)), VmCount(spec.vmNR))
      ensures IssuedPrefix(old(be.history), be.history, VmCalls(spec, nameMap, VmCount(spec.vmNR)))
      ensures r.Ok? ==> be.history == old(be.history) + VmCalls(spec, nameMap, VmCount(spec.vmNR))
      ensures r.Err? ==> exists k :: (0 <= k < VmCount(spec.vmNR)
        && Collect(VmPasses(spec, nameMap, be.respond, old(be.history)), k).Ok?
        && VmPass(spec, nameMap, be.respond, old(be.history), k) == Err(r.failure)
        && be.history == old(be.history) + VmCalls(spec, nameMap, k + 1))
    {
      var vms: seq<VmInstance> := [];
      ghost var passes := VmPasses(spec, nameMap, be.respond, be.history);
      for k := 0 to VmCount(spec.vmNR)
        invariant Collect(passes, k) == Ok(vms)
        invariant be.history == old(be.history) + VmCalls(spec, nameMap, k)
      {
        var next := VmStep(spec, nameMap, k, vms, old(be.history), be);
        if next.Err? {
          assert passes(k) == VmPass(spec, nameMap, be.respond, old(be.history), k);
          CollectStops(passes, k + 1, VmCount(spec.vmNR));
          VmCallsPrefix(spec, nameMap, k + 1, VmCount(spec.vmNR));
          assert be.history[|old(be.history)|..] == VmCalls(spec, nameMap, k + 1);
          return Err(next.failure);
        }
        vms := next.value;
      }
      assert be.history[|old(be.history)|..] == VmCalls(spec, nameMap, VmCount(spec.vmNR));
      return Ok(vms);
    }

    /** What one `onevnet show` reply makes of a private network's leases. */
    function LeasesReply(net: NetInstance, respond: (seq<Call>, Call) -> Option<string>, h: seq<Call>): Result<seq<Lease>>
    {
      match respond(h, VnetShow(net.name))
      case None => Err(EngineError(423))
      case Some(text) =>
        match parseXml(text)
        case None => Err(Fault)
        case Some(doc) => Ok(doc.leases)
    }

    /**
     * A network's leases are read exactly when its `onevnet show` is launched and the reply
     * parses, and they are the reply's LEASE records; a tool that cannot be launched gives 423.
     */
    lemma LeasesReplyMeaning(net: NetInstance, respond: (seq<Call>, Call) -> Option<string>, h: seq<Call>)
      ensures LeasesReply(net, respond, h).Ok? <==>
        (var out := respond(h, VnetShow(net.name)); out.Some? && parseXml(out.value).Some?)
      ensures LeasesReply(net, respond, h).Ok? ==>
        LeasesReply(net, respond, h).value == parseXml(respond(h, VnetShow(net.name)).value).value.leases
      ensures respond(h, VnetShow(net.name)).None? ==> LeasesReply(net, respond, h) == Err(EngineError(423))
    {
    }

    /**
     * What pass `k` of the first loop of `_fillInNetworkInfo` yields after the calls `h0`
     * and the shows of the networks before it: nothing read for a network that is not private.
     */
    function ShowPass(nets: seq<NetInstance>, respond: (seq<Call>, Call) -> Option<string>, h0: seq<Call>, k: nat)
      : Result<seq<Lease>>
    {
      if k >= |nets| then Err(Fault)
      else if nets[k].kind == "private" then LeasesReply(nets[k], respond, h0 + VnetShows(nets, k))
      else Ok([])
    }

    /** The passes of that loop, started after the calls `h0`. */
    function ShowPasses(nets: seq<NetInstance>, respond: (seq<Call>, Call) -> Option<string>, h0: seq<Call>)
      : nat -> Result<seq<Lease>>
    {
      (k: nat) => ShowPass(nets, respond, h0, k)
    }

    /** The outcome of that loop: the map from the private networks' names to their leases, or the first failure. */
    function ShownLeases(nets: seq<NetInstance>, respond: (seq<Call>, Call) -> Option<string>, h0: seq<Call>)
      : Result<map<string, seq<Lease>>>
    {
      match Collect(ShowPasses(nets, respond, h0), |nets|)
      case Err(f) => Err(f)
      case Ok(leases) => Ok(LeaseMap(nets, leases))
    }

    /**
     * The read-back of the leases succeeds exactly when every private network's `onevnet
     * show` is launched and its reply parses; it fails with 423 or a fault only.
     */
    lemma ShownLeasesSucceeds(nets: seq<NetInstance>, respond: (seq<Call>, Call) -> Option<string>, h0: seq<Call>)
      ensures ShownLeases(nets, respond, h0).Ok? <==> forall k :: 0 <= k < |nets| && nets[k].kind == "private" ==>
        (var out := respond(h0 + VnetShows(nets, k), VnetShow(nets[k].name)); out.Some? && parseXml(out.value).Some?)
      ensures ShownLeases(nets, respond, h0).Err? ==> ShownLeases(nets, respond, h0).failure in {EngineError(423), Fault}
    {
      var passes := ShowPasses(nets, respond, h0);
      CollectMeaning(passes, |nets|);
      forall k | 0 <= k < |nets|
        ensures passes(k).Ok? <==> (nets[k].kind == "private" ==>
          (var out := respond(h0 + VnetShows(nets, k), VnetShow(nets[k].name)); out.Some? && parseXml(out.value).Some?))
      {
        assert passes(k) == ShowPass(nets, respond, h0, k);
        if nets[k].kind == "private" {
          LeasesReplyMeaning(nets[k], respond, h0 + VnetShows(nets, k));
        }
      }
      if Collect(passes, |nets|).Err? {
        CollectFailure(passes, |nets|);
        var k :| 0 <= k < |nets| && passes(k) == Err(Collect(passes, |nets|).failure);
        assert passes(k) == ShowPass(nets, respond, h0, k);
      }
    }

    /**
     * After a successful read-back the map holds the names of the private networks and
     * nothing else, and the name of the last private network of a name maps to the leases
     * of the reply to its `onevnet show`.
     */
    lemma ShownLeasesContents(nets: seq<NetInstance>, respond: (seq<Call>, Call) -> Option<string>, h0: seq<Call>)
      requires ShownLeases(nets, respond, h0).Ok?
      ensures forall name :: name in ShownLeases(nets, respond, h0).value <==>
        exists k :: 0 <= k < |nets| && nets[k].kind == "private" && nets[k].name == name
      ensures forall k :: ((0 <= k < |nets| && nets[k].kind == "private"
        && (forall j :: k < j < |nets| && nets[j].kind == "private" ==> nets[j].name != nets[k].name))
        ==> (var out := respond(h0 + VnetShows(nets, k), VnetShow(nets[k].name));
             out.Some? && parseXml(out.value).Some?
             && ShownLeases(nets, respond, h0).value[nets[k].name] == parseXml(out.value).value.leases))
    {
      var passes := ShowPasses(nets, respond, h0);
      var leases := Collect(passes, |nets|).value;
      assert ShownLeases(nets, respond, h0).value == LeaseMap(nets, leases);
      CollectMeaning(passes, |nets|);
      LeaseMapMeaning(nets, leases);
      forall k | (0 <= k < |nets| && nets[k].kind == "private"
        && (forall j :: k < j < |nets| && nets[j].kind == "private" ==> nets[j].name != nets[k].name))
        ensures (var out := respond(h0 + VnetShows(nets, k), VnetShow(nets[k].name));
          out.Some? && parseXml(out.value).Some? && LeaseMap(nets, leases)[nets[k].name] == parseXml(out.value).value.leases)
      {
        assert LeaseMap(nets, leases)[nets[k].name] == leases[k] == passes(k).value;
        assert passes(k) == ShowPass(nets, respond, h0, k);
        assert ShowPass(nets, respond, h0, k) == LeasesReply(nets[k], respond, h0 + VnetShows(nets, k));
        LeasesReplyMeaning(nets[k], respond, h0 + VnetShows(nets, k));
      }
    }

    /** One pass of the first loop of `_fillInNetworkInfo`: `onevnet show` for a private network. */
    method ShowStep(nets: seq<NetInstance>, k: nat, ghost h0: seq<Call>, be: Backend) returns (r: Result<seq<Lease>>)
      requires k < |nets| && be.history == h0 + VnetShows(nets, k)
      modifies be
      ensures r == ShowPass(nets, be.respond, h0, k)
      ensures be.history == h0 + VnetShows(nets, k + 1)
    {
      if nets[k].kind != "private" {
        return Ok([]);
      }
      var out := be.Invoke(VnetShow(nets[k].name));
      if out.None? {
        return Err(EngineError(423));
      }
      var doc := parseXml(out.value);
      if doc.None? {
        return Err(Fault);
      }
      return Ok(doc.value.leases);
    }

    /**
     * The first loop of `_fillInNetworkInfo`: `onevnet show` for every private network, its
     * LEASE records kept under the network's name.
     */
    method ShowNetworks(nets: seq<NetInstance>, be: Backend) returns (r: Result<map<string, seq<Lease>>>)
      modifies be
      ensures r == ShownLeases(nets, be.respond, old(be.history))
      ensures IssuedPrefix(old(be.history), be.history, VnetShows(nets, |nets|))
      ensures r.Ok? ==> be.history == old(be.history) + VnetShows(nets, |nets|)
    {
      var infos: map<string, seq<Lease>> := map[];
      ghost var leases: seq<seq<Lease>> := [];
      ghost var passes := ShowPasses(nets, be.respond, be.history);
      for k := 0 to |nets|
        invariant Collect(passes, k) == Ok(leases)
        invariant infos == LeaseMap(nets, leases)
        invariant be.history == old(be.history) + VnetShows(nets, k)
      {
        var next := ShowStep(nets, k, old(be.history), be);
        assert passes(k) == next;
        if next.Err? {
          CollectStops(passes, k + 1, |nets|);
          VnetShowsPrefix(nets, k + 1, |nets|);
          assert be.history[|old(be.history)|..] == VnetShows(nets, k + 1);
          return Err(next.failure);
        }
        if nets[k].kind == "private" {
          infos := infos[nets[k].name := next.value];
        }
        assert (leases + [next.value])[..k] == leases;
        leases := leases + [next.value];
      }
      assert be.history[|old(be.history)|..] == VnetShows(nets, |nets|);
      return Ok(infos);
    }

    /** What one `onevm show` reply makes of a VM's status. */
    function ShownStatus(out: Option<string>): (r: Result<string>)
      ensures r == Err(EngineError(424)) <==> out.None?
      ensures out.Some? ==> (r.Ok? <==> parseXml(out.value).Some?)
      ensures r.Ok? ==> KnownStatus(r.value)
      ensures r.Err? ==> r.failure in {EngineError(424), Fault}
    {
      match out
      case None => Err(EngineError(424))
      case Some(text) =>
        match parseXml(text)
        case None => Err(Fault)
        case Some(doc) => Ok(VmStatus(doc.lcmState))
    }

    /** The status pass `k` of `_fillInStatusInfo` over `vms` yields after the calls `h0` and the shows before it. */
    function StatusPass(vms: seq<VmInstance>, respond: (seq<Call>, Call) -> Option<string>, h0: seq<Call>, k: nat)
      : Result<string>
    {
      if k < |vms| then ShownStatus(respond(h0 + ShowCalls(vms[..k]), VmShow(vms[k].id))) else Err(Fault)
    }

    /** The passes of `_fillInStatusInfo` over `vms`, started after the calls `h0`. */
    function StatusPasses(vms: seq<VmInstance>, respond: (seq<Call>, Call) -> Option<string>, h0: seq<Call>)
      : nat -> Result<string>
    {
      (k: nat) => StatusPass(vms, respond, h0, k)
    }

    /** The outcome of `_fillInStatusInfo` over `vms`: every VM with the status its reply gives, or the first failure. */
    function RefreshStatuses(vms: seq<VmInstance>, respond: (seq<Call>, Call) -> Option<string>, h0: seq<Call>)
      : Result<seq<VmInstance>>
    {
      match Collect(StatusPasses(vms, respond, h0), |vms|)
      case Err(f) => Err(f)
      case Ok(statuses) => Ok(Refreshed(vms, statuses))
    }

    /**
     * The refresh succeeds exactly when every VM's `onevm show` is launched and its reply
     * parses; each VM then carries the status its reply gives and is otherwise unchanged. It
     * fails with 424 or a fault only.
     */
    lemma RefreshStatusesMeaning(vms: seq<VmInstance>, respond: (seq<Call>, Call) -> Option<string>, h0: seq<Call>)
      ensures RefreshStatuses(vms, respond, h0).Ok? <==> forall k :: 0 <= k < |vms| ==>
        (var out := respond(h0 + ShowCalls(vms[..k]), VmShow(vms[k].id)); out.Some? && parseXml(out.value).Some?)
      ensures RefreshStatuses(vms, respond, h0).Ok? ==> (|RefreshStatuses(vms, respond, h0).value| == |vms|
        && forall k :: 0 <= k < |vms| ==> (var out := respond(h0 + ShowCalls(vms[..k]), VmShow(vms[k].id));
          RefreshStatuses(vms, respond, h0).value[k] == vms[k].(status := VmStatus(parseXml(out.value).value.lcmState))))
      ensures RefreshStatuses(vms, respond, h0).Err? ==> RefreshStatuses(vms, respond, h0).failure in {EngineError(424), Fault}
    {
      var passes := StatusPasses(vms, respond, h0);
      CollectMeaning(passes, |vms|);
      forall k | 0 <= k < |vms|
        ensures (var out := respond(h0 + ShowCalls(vms[..k]), VmShow(vms[k].id));
          (passes(k).Ok? <==> out.Some? && parseXml(out.value).Some?)
          && (passes(k).Ok? ==> passes(k).value == VmStatus(parseXml(out.value).value.lcmState)))
      {
        assert passes(k) == StatusPass(vms, respond, h0, k);
      }
      if Collect(passes, |vms|).Err? {
        CollectFailure(passes, |vms|);
        var k :| 0 <= k < |vms| && passes(k) == Err(Collect(passes, |vms|).failure);
        assert passes(k) == StatusPass(vms, respond, h0, k);
      }
    }

    /**
     * `_fillInStatusInfo` stopped at VM `k`: the VMs before it carry their new status, the
     * others are as in `vms`, the history is `h0` with the shows up to VM `k`, and VM `k`'s
     * reply gave `failure`.
     */
    predicate StoppedAt(vms: seq<VmInstance>, respond: (seq<Call>, Call) -> Option<string>, h0: seq<Call>,
                        out: seq<VmInstance>, h: seq<Call>, failure: Failure)
    {
      exists k :: 0 <= k < |vms| && Collect(StatusPasses(vms, respond, h0), k).Ok?
        && StatusPass(vms, respond, h0, k) == Err(failure)
        && out == Refreshed(vms[..k], Collect(StatusPasses(vms, respond, h0), k).value) + vms[k..]
        && h == h0 + ShowCalls(vms[..k + 1])
    }

    /** One pass of `_fillInStatusInfo`: `onevm show` for VM `k` and the status its reply gives. */
    method StatusStep(vms: seq<VmInstance>, k: nat, ghost h0: seq<Call>, be: Backend) returns (r: Result<string>)
      requires k < |vms| && be.history == h0 + ShowCalls(vms[..k])
      modifies be
      ensures r == StatusPass(vms, be.respond, h0, k)
      ensures be.history == h0 + ShowCalls(vms[..k + 1])
    {
      var out := be.Invoke(VmShow(vms[k].id));
      assert ShowCalls(vms[..k + 1]) == ShowCalls(vms[..k]) + [VmShow(vms[k].id)];
      r := ShownStatus(out);
    }

    /**
     * `_fillInStatusInfo` over `vms0`, started after the calls `h0`, has recorded the
     * statuses `statuses` of its first VMs into `vms`, `h` being the calls made by then.
     */
    predicate StatusProgress(vms0: seq<VmInstance>, respond: (seq<Call>, Call) -> Option<string>, h0: seq<Call>,
                             vms: seq<VmInstance>, statuses: seq<string>, h: seq<Call>)
    {
      |statuses| <= |vms0| && Collect(StatusPasses(vms0, respond, h0), |statuses|) == Ok(statuses)
      && vms == PartlyRefreshed(vms0, statuses) && h == h0 + ShowCalls(vms0[..|statuses|])
    }

    /** The same loop then stopped at the next VM, whose pass gave `failure`. */
    predicate StatusStopped(vms0: seq<VmInstance>, respond: (seq<Call>, Call) -> Option<string>, h0: seq<Call>,
                            vms: seq<VmInstance>, statuses: seq<string>, h: seq<Call>, failure: Failure)
    {
      |statuses| < |vms0| && Collect(StatusPasses(vms0, respond, h0), |statuses|) == Ok(statuses)
      && vms == PartlyRefreshed(vms0, statuses)
      && StatusPass(vms0, respond, h0, |statuses|) == Err(failure) && h == h0 + ShowCalls(vms0[..|statuses| + 1])
    }

    /**
     * One pass of `_fillInStatusInfo` with its bookkeeping: VM `k` gets the status its reply
     * gives, or the pass fails and nothing more is recorded.
     */
    method StatusRound(vms0: seq<VmInstance>, k: nat, vms: seq<VmInstance>, ghost statuses: seq<string>,
                       ghost h0: seq<Call>, be: Backend)
      returns (vms': seq<VmInstance>, ghost statuses': seq<string>, failure: Option<Failure>)
      requires k == |statuses| < |vms0| && StatusProgress(vms0, be.respond, h0, vms, statuses, be.history)
      modifies be
      ensures failure.None? ==> (|statuses'| == k + 1 && StatusProgress(vms0, be.respond, h0, vms', statuses', be.history)
        && statuses' == statuses + [StatusPass(vms0, be.respond, h0, k).value])
      ensures failure.Some? ==> StatusStopped(vms0, be.respond, h0, vms', statuses', be.history, failure.value)
    {
      var status := StatusStep(vms0, k, h0, be);
      if status.Err? {
        return vms, statuses, Some(status.failure);
      }
      StatusLoopGrows(vms0, be.respond, h0, statuses, status.value);
      vms' := vms[k := vms[k].(status := status.value)];
      statuses' := statuses + [status.value];
      failure := None;
    }

    /** Recording the status of VM `k` extends the refreshed prefix by one. */
    lemma RefreshedGrows(vms: seq<VmInstance>, statuses: seq<string>, status: string)
      requires |statuses| < |vms|
      ensures PartlyRefreshed(vms, statuses)[|statuses| := vms[|statuses|].(status := status)]
        == PartlyRefreshed(vms, statuses + [status])
    {
    }

    /** A status pass that succeeds extends the statuses collected so far. */
    lemma StatusLoopGrows(vms: seq<VmInstance>, respond: (seq<Call>, Call) -> Option<string>, h0: seq<Call>,
                          statuses: seq<string>, status: string)
      requires |statuses| < |vms| && Collect(StatusPasses(vms, respond, h0), |statuses|) == Ok(statuses)
      requires StatusPass(vms, respond, h0, |statuses|) == Ok(status)
      ensures Collect(StatusPasses(vms, respond, h0), |statuses| + 1) == Ok(statuses + [status])
      ensures PartlyRefreshed(vms, statuses)[|statuses| := vms[|statuses|].(status := status)]
        == PartlyRefreshed(vms, statuses + [status])
    {
      assert StatusPasses(vms, respond, h0)(|statuses|) == Ok(status);
      RefreshedGrows(vms, statuses, status);
    }

    /** A partly refreshed VM list differs from the original in statuses only. */
    lemma RefreshedSameButStatus(c: Cluster, statuses: seq<string>)
      requires |statuses| <= |c.vms|
      ensures SameButStatus(c, c.(vms := PartlyRefreshed(c.vms, statuses)))
    {
    }

    /** The bookkeeping of a status loop over the VMs of `c` that stops at VM `|statuses|`. */
    lemma StatusLoopStops(c: Cluster, respond: (seq<Call>, Call) -> Option<string>, h0: seq<Call>,
                          statuses: seq<string>, h: seq<Call>, failure: Failure)
      requires |statuses| < |c.vms|
      requires StatusStopped(c.vms, respond, h0, PartlyRefreshed(c.vms, statuses), statuses, h, failure)
      ensures (var r := c.(vms := PartlyRefreshed(c.vms, statuses));
        SameButStatus(c, r) && ShowsOnly(h0, h)
        && RefreshStatuses(c.vms, respond, h0) == Err(failure)
        && StoppedAt(c.vms, respond, h0, r.vms, h, failure))
    {
      var passes := StatusPasses(c.vms, respond, h0);
      assert passes(|statuses|) == Err(failure);
      CollectStops(passes, |statuses| + 1, |c.vms|);
      RefreshedSameButStatus(c, statuses);
      ShowCallsAreShows(h0, c.vms[..|statuses| + 1]);
    }

    /** The bookkeeping of a status loop over the VMs of `c` that completes. */
    lemma StatusLoopEnds(c: Cluster, respond: (seq<Call>, Call) -> Option<string>, h0: seq<Call>, statuses: seq<string>)
      requires |statuses| == |c.vms| && Collect(StatusPasses(c.vms, respond, h0), |c.vms|) == Ok(statuses)
      ensures (var r := c.(vms := PartlyRefreshed(c.vms, statuses));
        SameButStatus(c, r) && ShowsOnly(h0, h0 + ShowCalls(c.vms[..|statuses|]))
        && RefreshStatuses(c.vms, respond, h0) == Ok(r.vms)
        && h0 + ShowCalls(c.vms[..|statuses|]) == h0 + ShowCalls(c.vms))
    {
      assert c.vms[..|statuses|] == c.vms;
      assert c.vms[|statuses|..] == [];
      assert PartlyRefreshed(c.vms, statuses) == Refreshed(c.vms, statuses);
      RefreshedSameButStatus(c, statuses);
      ShowCallsAreShows(h0, c.vms);
    }

    /**
     * `_fillInStatusInfo`: ask the backend for each VM's state and record its name in place.
     * On a failure the VMs before the failing one keep their new status.
     */
    method FillInStatusInfo(c: Cluster, be: Backend) returns (r: Cluster, failure: Option<Failure>)
      modifies be
      ensures SameButStatus(c, r)
      ensures ShowsOnly(old(be.history), be.history)
      ensures failure.None? <==> RefreshStatuses(c.vms, be.respond, old(be.history)).Ok?
      ensures failure.None? ==> (r == c.(vms := RefreshStatuses(c.vms, be.respond, old(be.history)).value)
        && be.history == old(be.history) + ShowCalls(c.vms))
      ensures failure.Some? ==> (RefreshStatuses(c.vms, be.respond, old(be.history)) == Err(failure.value)
        && StoppedAt(c.vms, be.respond, old(be.history), r.vms, be.history, failure.value))
    {
      var vms, stopped;
      ghost var statuses;
      vms, stopped, statuses := StatusLoop(c.vms, be);
      if stopped.Some? {
        StatusLoopStops(c, be.respond, old(be.history), statuses, be.history, stopped.value);
        return c.(vms := vms), stopped;
      }
      StatusLoopEnds(c, be.respond, old(be.history), statuses);
      return c.(vms := vms), None;
    }

    /**
     * The loop of `_fillInStatusInfo`, with the statuses it has recorded: either all of them,
     * or those before the VM whose pass failed.
     */
    method StatusLoop(vms0: seq<VmInstance>, be: Backend)
      returns (vms: seq<VmInstance>, failure: Option<Failure>, ghost statuses: seq<string>)
      modifies be
      ensures failure.None? ==> |statuses| == |vms0| && StatusProgress(vms0, be.respond, old(be.history), vms, statuses, be.history)
      ensures failure.Some? ==> StatusStopped(vms0, be.respond, old(be.history), vms, statuses, be.history, failure.value)
    {
      vms := vms0;
      statuses := [];
      for k := 0 to |vms0|
        invariant |statuses| == k
        invariant StatusProgress(vms0, be.respond, old(be.history), vms, statuses, be.history)
      {
        var stopped;
        vms, statuses, stopped := StatusRound(vms0, k, vms, statuses, old(be.history), be);
        if stopped.Some? {
          return vms, stopped, statuses;
        }
      }
      return vms, None, statuses;
    }

    /**
     * `c` is what a successful create records for `spec`: its networks as planned, one VM
     * per template index below `vmNR` shaped by its template, and every VM status a name
     * the status translation can give.
     */
    predicate Realizes(spec: ClusterSpec, salt: nat -> string, c: Cluster)
    {
      c.vmNR == spec.vmNR
      && NetsPlanned(spec.networks, salt, c.networks, |spec.networks|)
      && |c.vms| == VmCount(spec.vmNR) <= |spec.vmTemplates|
      && (forall k :: 0 <= k < |c.vms| ==> RootDevice(spec.vmTemplates[k].disks) != "")
      && StatusesKnown(c.vms)
      && forall k :: 0 <= k < |c.vms| ==>
           VmShape(spec.vmTemplates[k], spec.networks, NameMapFor(spec.networks, salt, |spec.networks|), c.vms[k])
    }

    /**
     * The outcome of `_fillInNetworkInfo` then `_fillInStatusInfo` on the VMs `vms` of a
     * cluster with networks `nets`, after the calls `h`: the leases read, the open IP slots
     * filled from them, then the statuses read.
     */
    function ReadBackOutcome(nets: seq<NetInstance>, vms: seq<VmInstance>,
                             respond: (seq<Call>, Call) -> Option<string>, h: seq<Call>): Result<seq<VmInstance>>
    {
      match ShownLeases(nets, respond, h)
      case Err(f) => Err(f)
      case Ok(infos) =>
        if exists j :: 0 <= j < |vms| && !Fillable(vms[j], infos) then Err(Fault)
        else RefreshStatuses(FilledVms(vms, infos), respond, h + VnetShows(nets, |nets|))
    }

    /**
     * `_fillInNetworkInfo` then `_fillInStatusInfo` on freshly built VMs: read the leases of
     * the private networks back into the open IP slots, then the state of every VM.
     */
    method ReadBack(nets: seq<NetInstance>, vms: seq<VmInstance>, be: Backend) returns (r: Result<seq<VmInstance>>)
      modifies be
      ensures r == ReadBackOutcome(nets, vms, be.respond, old(be.history))
      ensures r.Ok? ==> (be.history == old(be.history) + VnetShows(nets, |nets|) + ShowCalls(vms)
        && ShowCalls(r.value) == ShowCalls(vms))
      ensures NoDeletesSince(old(be.history), be.history)
    {
      var infos := ShowNetworks(nets, be);
      VnetShowsAreShows(nets, |nets|);
      IssuedNoDeletes(old(be.history), be.history, VnetShows(nets, |nets|));
      if infos.Err? {
        return Err(infos.failure);
      }
      var filled := FillIps(vms, infos.value);
      if filled.None? {
        return Err(Fault);
      }
      var refreshed, failure := FillInStatusInfo(Cluster(0, 0, filled.value, nets), be);
      assert ShowCalls(filled.value) == ShowCalls(vms);
      if failure.Some? {
        return Err(failure.value);
      }
      assert ShowCalls(refreshed.vms) == ShowCalls(vms);
      return Ok(refreshed.vms);
    }

    /**
     * A read-back that succeeds keeps every VM but its open IP slots and its status: each
     * open slot gets the VM's lease among those read for its network, and each status is
     * the one the reply to that VM's `onevm show` gave.
     */
    lemma ReadBackMeaning(nets: seq<NetInstance>, vms: seq<VmInstance>,
                          respond: (seq<Call>, Call) -> Option<string>, h: seq<Call>)
      requires ReadBackOutcome(nets, vms, respond, h).Ok?
      ensures ShownLeases(nets, respond, h).Ok?
      ensures (var infos := ShownLeases(nets, respond, h).value; var done := ReadBackOutcome(nets, vms, respond, h).value;
        |done| == |vms| && StatusesKnown(done)
        && forall k :: 0 <= k < |vms| ==> (Fillable(vms[k], infos)
          && (var out := respond(h + VnetShows(nets, |nets|) + ShowCalls(vms[..k]), VmShow(vms[k].id));
            out.Some? && parseXml(out.value).Some?
            && done[k] == vms[k].(ips := FilledIps(vms[k], infos), status := VmStatus(parseXml(out.value).value.lcmState)))))
    {
      var infos := ShownLeases(nets, respond, h).value;
      var filled := FilledVms(vms, infos);
      var h2 := h + VnetShows(nets, |nets|);
      assert ReadBackOutcome(nets, vms, respond, h) == RefreshStatuses(filled, respond, h2);
      RefreshStatusesMeaning(filled, respond, h2);
      forall k | 0 <= k < |vms|
        ensures ShowCalls(filled[..k]) == ShowCalls(vms[..k])
        ensures filled[k] == vms[k].(ips := FilledIps(vms[k], infos))
      {
        assert forall i :: 0 <= i < k ==> filled[..k][i].id == vms[..k][i].id;
      }
    }

    /** The outcome of the VM half of `_actionCreate` after the calls `h1`, once the networks `nets` exist. */
    function MachinesOutcome(spec: ClusterSpec, nameMap: map<string, string>, nets: seq<NetInstance>,
                             respond: (seq<Call>, Call) -> Option<string>, h1: seq<Call>, id: int): Result<Cluster>
    {
      match Collect(VmPasses(spec, nameMap, respond, h1), VmCount(spec.vmNR))
      case Err(f) => Err(f)
      case Ok(vms) =>
        match ReadBackOutcome(nets, vms, respond, h1 + VmCalls(spec, nameMap, VmCount(spec.vmNR)))
        case Err(f) => Err(f)
        case Ok(done) => Ok(Cluster(id, spec.vmNR, done, nets))
    }

    /**
     * The outcome of `_actionCreate` for `spec` after the calls `h0`, `id` being the counter:
     * the cluster built from the backend's replies, or why it could not be built
     * (NoRootDevice being the 501 answer).
     */
    function CreateOutcome(spec: ClusterSpec, salt: nat -> string, respond: (seq<Call>, Call) -> Option<string>,
                           h0: seq<Call>, id: int): Result<Cluster>
    {
      match Collect(NetPasses(spec.networks, spec.vmNR, salt, respond, h0), |spec.networks|)
      case Err(f) => Err(f)
      case Ok(nets) =>
        MachinesOutcome(spec, NameMapFor(spec.networks, salt, |spec.networks|), nets, respond,
                        h0 + VnetCalls(spec.networks, spec.vmNR, salt, |spec.networks|), id)
    }

    /** Every call a create of `spec` that built `c` made, in order. */
    function CreatedCalls(spec: ClusterSpec, salt: nat -> string, c: Cluster): seq<Call>
    {
      VnetCalls(spec.networks, spec.vmNR, salt, |spec.networks|)
      + VmCalls(spec, NameMapFor(spec.networks, salt, |spec.networks|), VmCount(spec.vmNR))
      + VnetShows(c.networks, |c.networks|) + ShowCalls(c.vms)
    }

    /**
     * A request for public networks only and no VM needs no backend call: its create
     * succeeds, under the counter value, with one network per requested one and no VM,
     * whatever the backend would answer.
     */
    lemma CreateNeedsNoBackend(spec: ClusterSpec, salt: nat -> string, respond: (seq<Call>, Call) -> Option<string>,
                               h0: seq<Call>, id: int)
      requires NeedsNoBackend(spec)
      ensures CreateOutcome(spec, salt, respond, h0, id).Ok?
      ensures (var c := CreateOutcome(spec, salt, respond, h0, id).value;
        c.id == id && c.vms == [] && |c.networks| == |spec.networks| && CreatedCalls(spec, salt, c) == []
        && DestroyCalls(c) == [])
    {
      var passes := NetPasses(spec.networks, spec.vmNR, salt, respond, h0);
      var h1 := h0 + VnetCalls(spec.networks, spec.vmNR, salt, |spec.networks|);
      PublicNetsSucceed(spec.networks, spec.vmNR, salt, respond, h0, Collect(passes, |spec.networks|), h1);
      var nets := Collect(passes, |spec.networks|).value;
      CollectMeaning(passes, |spec.networks|);
      forall k | 0 <= k < |nets|
        ensures nets[k].kind == "public"
      {
        assert passes(k) == NetPass(spec.networks, spec.vmNR, salt, respond, h0, k);
      }
      PublicNetsKept(nets);
      var nameMap := NameMapFor(spec.networks, salt, |spec.networks|);
      var h2 := h1 + VmCalls(spec, nameMap, 0);
      ShownLeasesSucceeds(nets, respond, h2);
      VnetShowsAreShows(nets, |nets|);
      assert Refreshed([], []) == [];
      assert RefreshStatuses([], respond, h2 + VnetShows(nets, |nets|)) == Ok([]);
    }

    /**
     * A create that succeeds records the cluster under the counter value, shaped as the
     * request asks.
     */
    lemma CreateOutcomeRealizes(spec: ClusterSpec, salt: nat -> string, respond: (seq<Call>, Call) -> Option<string>,
                                h0: seq<Call>, id: int)
      requires CreateOutcome(spec, salt, respond, h0, id).Ok?
      ensures CreateOutcome(spec, salt, respond, h0, id).value.id == id
      ensures Realizes(spec, salt, CreateOutcome(spec, salt, respond, h0, id).value)
    {
      var nets := Collect(NetPasses(spec.networks, spec.vmNR, salt, respond, h0), |spec.networks|).value;
      NetsBuilt(spec.networks, spec.vmNR, salt, respond, h0);
      var nameMap := NameMapFor(spec.networks, salt, |spec.networks|);
      var h1 := h0 + VnetCalls(spec.networks, spec.vmNR, salt, |spec.networks|);
      VmsBuilt(spec, nameMap, respond, h1);
      var vms := Collect(VmPasses(spec, nameMap, respond, h1), VmCount(spec.vmNR)).value;
      var h2 := h1 + VmCalls(spec, nameMap, VmCount(spec.vmNR));
      ReadBackMeaning(nets, vms, respond, h2);
      var c := CreateOutcome(spec, salt, respond, h0, id).value;
      assert c == Cluster(id, spec.vmNR, ReadBackOutcome(nets, vms, respond, h2).value, nets);
      forall k | 0 <= k < |c.vms|
        ensures VmShape(spec.vmTemplates[k], spec.networks, nameMap, c.vms[k])
      {
        ShapeKeptByFill(spec.vmTemplates[k], spec.networks, nameMap, vms[k], ShownLeases(nets, respond, h2).value);
      }
    }

    /**
     * A create that succeeds records, for each private network, the id in the reply to its
     * `onevnet create`.
     */
    lemma CreateOutcomeNetIds(spec: ClusterSpec, salt: nat -> string, respond: (seq<Call>, Call) -> Option<string>,
                              h0: seq<Call>, id: int)
      requires CreateOutcome(spec, salt, respond, h0, id).Ok?
      ensures (var c := CreateOutcome(spec, salt, respond, h0, id).value;
        |c.networks| == |spec.networks|
        && forall k :: 0 <= k < |spec.networks| && IsPrivate(spec.networks[k].1) ==>
          (VnetCallOf(spec.networks[k], spec.vmNR, salt(k)) != []
           && (var out := respond(h0 + VnetCalls(spec.networks, spec.vmNR, salt, k), VnetCallOf(spec.networks[k], spec.vmNR, salt(k))[0]);
               CreatedId(out, 422).Ok? && c.networks[k].id == CreatedId(out, 422).value)))
    {
      NetsBuilt(spec.networks, spec.vmNR, salt, respond, h0);
      var nets := Collect(NetPasses(spec.networks, spec.vmNR, salt, respond, h0), |spec.networks|).value;
      assert CreateOutcome(spec, salt, respond, h0, id).value.networks == nets;
    }

    /**
     * A create that succeeds records, for each VM, the number in the reply to its
     * `onevm create`.
     */
    lemma CreateOutcomeVmIds(spec: ClusterSpec, salt: nat -> string, respond: (seq<Call>, Call) -> Option<string>,
                             h0: seq<Call>, id: int)
      requires CreateOutcome(spec, salt, respond, h0, id).Ok?
      ensures (var c := CreateOutcome(spec, salt, respond, h0, id).value;
        var nameMap := NameMapFor(spec.networks, salt, |spec.networks|);
        var h1 := h0 + VnetCalls(spec.networks, spec.vmNR, salt, |spec.networks|);
        |c.vms| <= |spec.vmTemplates|
        && forall k :: 0 <= k < |c.vms| ==> (VmCallOf(spec.vmTemplates[k], spec.networks, nameMap) != []
          && (var out := respond(h1 + VmCalls(spec, nameMap, k), VmCallOf(spec.vmTemplates[k], spec.networks, nameMap)[0]);
              VmIdOf(out).Ok? && c.vms[k].id == VmIdOf(out).value)))
    {
      var nets := Collect(NetPasses(spec.networks, spec.vmNR, salt, respond, h0), |spec.networks|).value;
      var nameMap := NameMapFor(spec.networks, salt, |spec.networks|);
      var h1 := h0 + VnetCalls(spec.networks, spec.vmNR, salt, |spec.networks|);
      VmsBuilt(spec, nameMap, respond, h1);
      var vms := Collect(VmPasses(spec, nameMap, respond, h1), VmCount(spec.vmNR)).value;
      var h2 := h1 + VmCalls(spec, nameMap, VmCount(spec.vmNR));
      ReadBackMeaning(nets, vms, respond, h2);
      var c := CreateOutcome(spec, salt, respond, h0, id).value;
      assert c.vms == ReadBackOutcome(nets, vms, respond, h2).value;
    }

    /**
     * A create that succeeds reads its cluster back from the backend: each VM's status is
     * the one the reply to its `onevm show` gave.
     */
    lemma CreateOutcomeStatuses(spec: ClusterSpec, salt: nat -> string, respond: (seq<Call>, Call) -> Option<string>,
                                h0: seq<Call>, id: int)
      requires CreateOutcome(spec, salt, respond, h0, id).Ok?
      ensures (var c := CreateOutcome(spec, salt, respond, h0, id).value;
        var nameMap := NameMapFor(spec.networks, salt, |spec.networks|);
        var h2 := h0 + VnetCalls(spec.networks, spec.vmNR, salt, |spec.networks|) + VmCalls(spec, nameMap, VmCount(spec.vmNR));
        forall k :: 0 <= k < |c.vms| ==>
          (var out := respond(h2 + VnetShows(c.networks, |c.networks|) + ShowCalls(c.vms[..k]), VmShow(c.vms[k].id));
           out.Some? && parseXml(out.value).Some? && c.vms[k].status == VmStatus(parseXml(out.value).value.lcmState)))
    {
      var nets := Collect(NetPasses(spec.networks, spec.vmNR, salt, respond, h0), |spec.networks|).value;
      var nameMap := NameMapFor(spec.networks, salt, |spec.networks|);
      var h1 := h0 + VnetCalls(spec.networks, spec.vmNR, salt, |spec.networks|);
      var vms := Collect(VmPasses(spec, nameMap, respond, h1), VmCount(spec.vmNR)).value;
      var h2 := h1 + VmCalls(spec, nameMap, VmCount(spec.vmNR));
      ReadBackMeaning(nets, vms, respond, h2);
      var c := CreateOutcome(spec, salt, respond, h0, id).value;
      assert c.vms == ReadBackOutcome(nets, vms, respond, h2).value && c.networks == nets;
      forall k | 0 <= k < |c.vms|
        ensures ShowCalls(c.vms[..k]) == ShowCalls(vms[..k])
      {
        assert forall i :: 0 <= i < k ==> c.vms[..k][i].id == vms[..k][i].id;
      }
    }

    /**
     * A create that succeeds fills each open IP slot of a VM with that VM's lease among
     * those the `onevnet show` of its network listed.
     */
    lemma CreateOutcomeLeases(spec: ClusterSpec, salt: nat -> string, respond: (seq<Call>, Call) -> Option<string>,
                              h0: seq<Call>, id: int)
      requires CreateOutcome(spec, salt, respond, h0, id).Ok?
      ensures (var c := CreateOutcome(spec, salt, respond, h0, id).value;
        var nameMap := NameMapFor(spec.networks, salt, |spec.networks|);
        var h2 := h0 + VnetCalls(spec.networks, spec.vmNR, salt, |spec.networks|) + VmCalls(spec, nameMap, VmCount(spec.vmNR));
        ShownLeases(c.networks, respond, h2).Ok? && |c.vms| <= |spec.vmTemplates|
        && forall k :: 0 <= k < |c.vms| ==>
          LeasesFilled(spec.vmTemplates[k], spec.networks, nameMap, c.vms[k], ShownLeases(c.networks, respond, h2).value))
    {
      var nets := Collect(NetPasses(spec.networks, spec.vmNR, salt, respond, h0), |spec.networks|).value;
      var nameMap := NameMapFor(spec.networks, salt, |spec.networks|);
      var h1 := h0 + VnetCalls(spec.networks, spec.vmNR, salt, |spec.networks|);
      VmsBuilt(spec, nameMap, respond, h1);
      var vms := Collect(VmPasses(spec, nameMap, respond, h1), VmCount(spec.vmNR)).value;
      var h2 := h1 + VmCalls(spec, nameMap, VmCount(spec.vmNR));
      ReadBackMeaning(nets, vms, respond, h2);
      var c := CreateOutcome(spec, salt, respond, h0, id).value;
      var infos := ShownLeases(nets, respond, h2).value;
      assert c.vms == ReadBackOutcome(nets, vms, respond, h2).value && c.networks == nets;
      forall k | 0 <= k < |c.vms|
        ensures LeasesFilled(spec.vmTemplates[k], spec.networks, nameMap, c.vms[k], infos)
      {
        LeasesFilledByFill(spec.vmTemplates[k], spec.networks, nameMap, vms[k], infos, c.vms[k].status);
      }
    }

    /** The VM half of `_actionCreate`, once the networks exist: create the VMs, then read them back. */
    method BuildMachines(spec: ClusterSpec, nameMap: map<string, string>, nets: seq<NetInstance>, id: int, be: Backend)
      returns (r: Result<Cluster>)
      modifies be
      ensures r == MachinesOutcome(spec, nameMap, nets, be.respond, old(be.history), id)
      ensures r.Ok? ==> (be.history == old(be.history) + VmCalls(spec, nameMap, VmCount(spec.vmNR))
        + VnetShows(nets, |nets|) + ShowCalls(r.value.vms))
      ensures NoDeletesSince(old(be.history), be.history)
      ensures VmCount(spec.vmNR) >= 1 && |spec.vmTemplates| >= 1 && RootDevice(spec.vmTemplates[0].disks) == ""
        ==> r == Err(NoRootDevice) && be.history == old(be.history)
    {
      var vms := ProvisionVms(spec, nameMap, be);
      VmCallsCreate(spec, nameMap, VmCount(spec.vmNR));
      IssuedNoDeletes(old(be.history), be.history, VmCalls(spec, nameMap, VmCount(spec.vmNR)));
      if VmCount(spec.vmNR) >= 1 && |spec.vmTemplates| >= 1 && RootDevice(spec.vmTemplates[0].disks) == "" {
        NoRootStopsVms(spec, nameMap, be.respond, old(be.history));
        ghost var k :| (0 <= k < VmCount(spec.vmNR)
          && Collect(VmPasses(spec, nameMap, be.respond, old(be.history)), k).Ok?
          && VmPass(spec, nameMap, be.respond, old(be.history), k) == Err(vms.failure)
          && be.history == old(be.history) + VmCalls(spec, nameMap, k + 1));
        assert k == 0;
      }
      if vms.Err? {
        return Err(vms.failure);
      }
      var done := ReadBack(nets, vms.value, be);
      if done.Err? {
        return Err(done.failure);
      }
      return Ok(Cluster(id, spec.vmNR, done.value, nets));
    }

    /**
     * The whole of `_actionCreate` up to the registration: the cluster built for `spec`, or
     * why it could not be built.
     */
    method BuildCluster(spec: ClusterSpec, salt: nat -> string, id: int, be: Backend) returns (r: Result<Cluster>)
      modifies be
      ensures r == CreateOutcome(spec, salt, be.respond, old(be.history), id)
      ensures r.Ok? ==> be.history == old(be.history) + CreatedCalls(spec, salt, r.value)
      ensures NoDeletesSince(old(be.history), be.history)
      ensures AllPublic(spec.networks)
        && VmCount(spec.vmNR) >= 1 && |spec.vmTemplates| >= 1 && RootDevice(spec.vmTemplates[0].disks) == ""
        ==> r == Err(NoRootDevice) && be.history == old(be.history)
    {
      var nets, nameMap := ProvisionNetworks(spec, salt, be);
      VnetCallsCreate(spec.networks, spec.vmNR, salt, |spec.networks|);
      if AllPublic(spec.networks) && VmCount(spec.vmNR) >= 1 && |spec.vmTemplates| >= 1
        && RootDevice(spec.vmTemplates[0].disks) == "" {
        PublicNetsSucceed(spec.networks, spec.vmNR, salt, be.respond, old(be.history), nets, be.history);
      }
      IssuedNoDeletes(old(be.history), be.history, VnetCalls(spec.networks, spec.vmNR, salt, |spec.networks|));
      if nets.Err? {
        return Err(nets.failure);
      }
      ghost var h1 := be.history;
      r := BuildMachines(spec, nameMap, nets.value, id, be);
      if r.Ok? {
        assert r.value.networks == nets.value;
        HistoryGrows(old(be.history), VnetCalls(spec.networks, spec.vmNR, salt, |spec.networks|),
          VmCalls(spec, nameMap, VmCount(spec.vmNR)), VnetShows(nets.value, |nets.value|), ShowCalls(r.value.vms));
      }
    }

    /** Store a built cluster under the current counter value, then advance the counter. */
    method Register(c: Cluster)
      modifies this
      requires Valid() && c.id == nextId
      ensures Valid()
      ensures clusters == old(clusters)[old(nextId) := c] && nextId == old(nextId) + 1
    {
      clusters := clusters[nextId := c];
      nextId := nextId + 1;
    }

    /**
     * `_actionCreate`: only a cluster that was built completely is registered, under the
     * current counter value, and the counter moves on by one.
     */
    method ActionCreate(spec: Option<ClusterSpec>, salt: nat -> string, be: Backend) returns (r: Result<Reply>)
      requires Valid()
      modifies this, be
      ensures Valid()
      ensures spec.None? ==> r == Err(Fault) && be.history == old(be.history)
      ensures spec.Some? ==> (var o := CreateOutcome(spec.value, salt, be.respond, old(be.history), old(nextId));
        (o.Ok? ==> (r == Ok(Reply(0, "successful", [o.value]))
          && clusters == old(clusters)[old(nextId) := o.value] && nextId == old(nextId) + 1
          && be.history == old(be.history) + CreatedCalls(spec.value, salt, o.value)))
        && (o == Err(NoRootDevice) ==> r == Ok(NoRootReply))
        && (o.Err? && o.failure != NoRootDevice ==> r == Err(o.failure)))
      ensures !(r.Ok? && r.value.code == 0) ==> clusters == old(clusters) && nextId == old(nextId)
      ensures NoDeletesSince(old(be.history), be.history)
      ensures spec.Some? && AllPublic(spec.value.networks)
        && VmCount(spec.value.vmNR) >= 1 && |spec.value.vmTemplates| >= 1 && RootDevice(spec.value.vmTemplates[0].disks) == ""
        ==> r == Ok(NoRootReply) && be.history == old(be.history)
    {
      if spec.None? {
        return Err(Fault);
      }
      var built := BuildCluster(spec.value, salt, nextId, be);
      if built.Err? {
        if built.failure == NoRootDevice {
          // The source returns a two-element list here while `run` unpacks three values.
          return Ok(NoRootReply);
        }
        return Err(built.failure);
      }
      Register(built.value);
      r := Ok(Reply(0, "successful", [built.value]));
    }

    /** The first delete loop of `_actionDestroy`: `onevm delete` for each VM, in order. */
    method DeleteVms(vms: seq<VmInstance>, be: Backend) returns (ok: bool)
      modifies be
      ensures old(be.history) <= be.history && be.history[|old(be.history)|..] <= VmDeletes(vms)
      ensures ok <==> Launches(be.respond, old(be.history), VmDeletes(vms))
      ensures ok ==> be.history == old(be.history) + VmDeletes(vms)
      ensures !ok ==> (|be.history| > |old(be.history)|
        && LastCallFailed(be.respond, be.history))
    {
      for k := 0 to |vms|
        invariant be.history == old(be.history) + VmDeletes(vms[..k])
        invariant Launches(be.respond, old(be.history), VmDeletes(vms[..k]))
      {
        assert vms[..k + 1][..k] == vms[..k];
        ghost var before := be.history;
        var out := be.Invoke(VmDelete(vms[k].id));
        LaunchesNext(be.respond, old(be.history), VmDeletes(vms[..k]), VmDelete(vms[k].id));
        VmDeletesPrefix(vms, k + 1);
        if out.None? {
          assert be.history[|old(be.history)|..] == VmDeletes(vms[..k + 1]);
          assert be.history[..|be.history| - 1] == before;
          LaunchFails(be.respond, old(be.history), VmDeletes(vms[..k]), VmDelete(vms[k].id), VmDeletes(vms));
          return false;
        }
      }
      assert vms[..|vms|] == vms;
      return true;
    }

    /** The second delete loop: `onevnet delete` for each network that is not public, in order. */
    method DeleteNetworks(nets: seq<NetInstance>, be: Backend) returns (ok: bool)
      modifies be
      ensures old(be.history) <= be.history && be.history[|old(be.history)|..] <= VnetDeletes(nets)
      ensures ok <==> Launches(be.respond, old(be.history), VnetDeletes(nets))
      ensures ok ==> be.history == old(be.history) + VnetDeletes(nets)
      ensures !ok ==> (|be.history| > |old(be.history)|
        && LastCallFailed(be.respond, be.history))
    {
      for k := 0 to |nets|
        invariant be.history == old(be.history) + VnetDeletes(nets[..k])
        invariant Launches(be.respond, old(be.history), VnetDeletes(nets[..k]))
      {
        assert nets[..k + 1][..k] == nets[..k];
        if nets[k].kind != "public" {
          ghost var before := be.history;
          var out := be.Invoke(VnetDelete(nets[k].id));
          LaunchesNext(be.respond, old(be.history), VnetDeletes(nets[..k]), VnetDelete(nets[k].id));
          VnetDeletesPrefix(nets, k + 1);
          if out.None? {
            assert be.history[|old(be.history)|..] == VnetDeletes(nets[..k + 1]);
            assert be.history[..|be.history| - 1] == before;
            LaunchFails(be.respond, old(be.history), VnetDeletes(nets[..k]), VnetDelete(nets[k].id), VnetDeletes(nets));
            return false;
          }
        } else {
          assert VnetDeletes(nets[..k + 1]) == VnetDeletes(nets[..k]);
        }
      }
      assert nets[..|nets|] == nets;
      return true;
    }

    /**
     * The two delete loops of `_actionDestroy`: every VM of `c`, then every network of `c`
     * that is not public; the first launch that raises ends it.
     */
    method DeleteCluster(c: Cluster, be: Backend) returns (failure: Option<Failure>)
      modifies be
      ensures old(be.history) <= be.history && be.history[|old(be.history)|..] <= DestroyCalls(c)
      ensures failure.None? <==> Launches(be.respond, old(be.history), DestroyCalls(c))
      ensures failure.None? ==> be.history == old(be.history) + DestroyCalls(c)
      ensures failure == Some(EngineError(421)) <==> !Launches(be.respond, old(be.history), VmDeletes(c.vms))
      ensures failure == Some(Fault) <==> (Launches(be.respond, old(be.history), VmDeletes(c.vms))
        && !Launches(be.respond, old(be.history) + VmDeletes(c.vms), VnetDeletes(c.networks)))
      ensures failure.Some? ==> (failure.value in {EngineError(421), Fault}
        && |be.history| > |old(be.history)|
        && LastCallFailed(be.respond, be.history))
    {
      var vmsGone := DeleteVms(c.vms, be);
      if !vmsGone {
        DestroyStopsInVms(be.respond, old(be.history), be.history, c);
        return Some(EngineError(421));
      }
      var netsGone := DeleteNetworks(c.networks, be);
      PrefixAfter(old(be.history), VmDeletes(c.vms), VnetDeletes(c.networks), be.history);
      DestroyLaunches(be.respond, old(be.history), c);
      if !netsGone {
        // Formatting this error message with `%d` raises on the string id, so the
        // intended 422 surfaces as some other exception.
        return Some(Fault);
      }
      return None;
    }

    /**
     * `_actionDestroy`: exactly one argument, the id of a registered cluster; delete its
     * VMs, then its networks that are not public, then forget it.
     */
    method ActionDestroy(args: seq<string>, be: Backend) returns (r: Result<Reply>)
      modifies this, be
      requires Valid()
      ensures Valid() && nextId == old(nextId)
      ensures |args| != 1 ==> (r == Ok(Reply(402, "No vCluster ID is given", []))
        && clusters == old(clusters) && be.history == old(be.history))
      ensures |args| == 1 && ParseInt(args[0]).None? ==> (r == Err(Fault)
        && clusters == old(clusters) && be.history == old(be.history))
      ensures |args| == 1 && ParseInt(args[0]).Some? && ParseInt(args[0]).value !in old(clusters) ==>
        r == Ok(Reply(403, "vCluster with ID " + IntToString(ParseInt(args[0]).value) + " is not existed", []))
        && clusters == old(clusters) && be.history == old(be.history)
      ensures |args| == 1 && ParseInt(args[0]).Some? && ParseInt(args[0]).value in old(clusters) ==>
        old(be.history) <= be.history
        && be.history[|old(be.history)|..] <= DestroyCalls(old(clusters)[ParseInt(args[0]).value])
      ensures |args| == 1 && ParseInt(args[0]).Some? && ParseInt(args[0]).value in old(clusters) ==>
        var c := old(clusters)[ParseInt(args[0]).value];
        (r == Ok(Reply(0, "Successful", [])) <==> Launches(be.respond, old(be.history), DestroyCalls(c)))
        && (r == Err(EngineError(421)) <==> !Launches(be.respond, old(be.history), VmDeletes(c.vms)))
        && (r == Err(Fault) <==> (Launches(be.respond, old(be.history), VmDeletes(c.vms))
              && !Launches(be.respond, old(be.history) + VmDeletes(c.vms), VnetDeletes(c.networks))))
      ensures r.Ok? && r.value.code == 0 ==> (|args| == 1 && ParseInt(args[0]).Some?
        && ParseInt(args[0]).value in old(clusters) && r.value == Reply(0, "Successful", [])
        && clusters == old(clusters) - {ParseInt(args[0]).value}
        && be.history == old(be.history) + DestroyCalls(old(clusters)[ParseInt(args[0]).value]))
      ensures !(r.Ok? && r.value.code == 0) ==> clusters == old(clusters)
      ensures r.Ok? ==> r.value.code in {0, 402, 403}
      ensures r.Err? ==> r.failure in {EngineError(421), Fault}
      ensures r.Err? && |be.history| > |old(be.history)| ==>
        LastCallFailed(be.respond, be.history)
    {
      if |args| != 1 {
        return Ok(Reply(402, "No vCluster ID is given", []));
      }
      var id := ParseInt(args[0]);
      if id.None? {
        return Err(Fault);
      }
      if id.value !in clusters {
        return Ok(Reply(403, "vCluster with ID " + IntToString(id.value) + " is not existed", []));
      }
      var failure := DeleteCluster(clusters[id.value], be);
      if failure.Some? {
        return Err(failure.value);
      }
      clusters := clusters - {id.value};
      return Ok(Reply(0, "Successful", []));
    }

    /**
     * What `_actionList` makes of the cluster registered under `id` in `m`, after the calls
     * `h0` and the shows of the clusters below it.
     */
    function RefreshAt(m: map<int, Cluster>, respond: (seq<Call>, Call) -> Option<string>, h0: seq<Call>, id: int)
      : Result<seq<VmInstance>>
      requires id in m
    {
      RefreshStatuses(m[id].vms, respond, h0 + ListCalls(m, id))
    }

    /**
     * The registry during `_actionList` over `orig`, started after the calls `h0`, before id
     * `n`: the same ids, each cluster below `n` with the statuses its replies gave, the
     * others not yet touched.
     */
    predicate ListedBelow(cur: map<int, Cluster>, orig: map<int, Cluster>,
                          respond: (seq<Call>, Call) -> Option<string>, h0: seq<Call>, n: int)
    {
      cur.Keys == orig.Keys
      && (forall i :: i in orig && i < n ==> (RefreshAt(orig, respond, h0, i).Ok?
            && cur[i] == orig[i].(vms := RefreshAt(orig, respond, h0, i).value)))
      && (forall i :: i in orig && i >= n ==> cur[i] == orig[i])
    }

    /**
     * `_actionList` over `orig` stopped at the cluster under `id` with `failure`: the ones
     * below it refreshed, the ones above it untouched, and that one refreshed up to the VM
     * whose reply failed, `h` being the calls made by then.
     */
    predicate ListStopped(cur: map<int, Cluster>, orig: map<int, Cluster>,
                          respond: (seq<Call>, Call) -> Option<string>, h0: seq<Call>,
                          id: int, h: seq<Call>, failure: Failure)
    {
      id in orig && cur.Keys == orig.Keys
      && (forall i :: i in orig && i < id ==> (RefreshAt(orig, respond, h0, i).Ok?
            && cur[i] == orig[i].(vms := RefreshAt(orig, respond, h0, i).value)))
      && (forall i :: i in orig && i > id ==> cur[i] == orig[i])
      && RefreshAt(orig, respond, h0, id) == Err(failure)
      && cur[id] == orig[id].(vms := cur[id].vms)
      && StoppedAt(orig[id].vms, respond, h0 + ListCalls(orig, id), cur[id].vms, h, failure)
    }

    /**
     * `_actionList`: refresh the status of every VM of every registered cluster in place, by
     * ascending id, then answer with the registry's contents. A failure leaves the refreshes
     * made so far.
     */
    method ActionList(be: Backend) returns (r: Result<Reply>)
      requires Valid()
      modifies this, be
      ensures Valid() && nextId == old(nextId) && clusters.Keys == old(clusters).Keys
      ensures r.Ok? <==> forall id :: id in old(clusters) ==> RefreshAt(old(clusters), be.respond, old(be.history), id).Ok?
      ensures r.Ok? ==> (ListedBelow(clusters, old(clusters), be.respond, old(be.history), nextId)
        && be.history == old(be.history) + ListCalls(old(clusters), nextId)
        && r.value == Reply(0, "Successful", Snapshot(clusters, nextId)))
      ensures r.Err? ==> exists id :: ListStopped(clusters, old(clusters), be.respond, old(be.history), id, be.history, r.failure)
    {
      var id := 0;
      while id < nextId
        invariant 0 <= id <= nextId == old(nextId)
        invariant Valid()
        invariant ListedBelow(clusters, old(clusters), be.respond, old(be.history), id)
        invariant be.history == old(be.history) + ListCalls(old(clusters), id)
      {
        if id in clusters {
          var failure := RefreshEntry(id, old(clusters), old(be.history), be);
          if failure.Some? {
            return Err(failure.value);
          }
        }
        id := id + 1;
      }
      return Ok(Reply(0, "Successful", Snapshot(clusters, nextId)));
    }

    /** One pass of the loop of `_actionList`: refresh the statuses of the cluster stored under `id`. */
    method RefreshEntry(id: int, ghost orig: map<int, Cluster>, ghost h0: seq<Call>, be: Backend)
      returns (failure: Option<Failure>)
      requires Valid() && id in clusters && ListedBelow(clusters, orig, be.respond, h0, id)
      requires be.history == h0 + ListCalls(orig, id)
      modifies this, be
      ensures Valid() && nextId == old(nextId)
      ensures failure.None? ==> (ListedBelow(clusters, orig, be.respond, h0, id + 1) && be.history == h0 + ListCalls(orig, id + 1))
      ensures failure.Some? ==> ListStopped(clusters, orig, be.respond, h0, id, be.history, failure.value)
    {
      var refreshed;
      refreshed, failure := FillInStatusInfo(clusters[id], be);
      if failure.None? {
        ListEntryRefreshed(clusters, orig, be.respond, h0, id, refreshed, be.history);
      } else {
        ListEntryStopped(clusters, orig, be.respond, h0, id, refreshed, failure.value, be.history);
      }
      clusters := clusters[id := refreshed];
    }

    /**
     * The bookkeeping of one pass of `_actionList` that succeeds: the refreshed cluster under
     * `id` extends the refreshed part of the registry by one.
     */
    lemma ListEntryRefreshed(cur: map<int, Cluster>, orig: map<int, Cluster>,
                             respond: (seq<Call>, Call) -> Option<string>, h0: seq<Call>,
                             id: int, r: Cluster, h: seq<Call>)
      requires 0 <= id && id in cur && ListedBelow(cur, orig, respond, h0, id)
      requires RefreshAt(orig, respond, h0, id).Ok?
      requires r == cur[id].(vms := RefreshAt(orig, respond, h0, id).value)
      requires h == h0 + ListCalls(orig, id) + ShowCalls(cur[id].vms)
      ensures ListedBelow(cur[id := r], orig, respond, h0, id + 1) && h == h0 + ListCalls(orig, id + 1)
    {
      assert cur[id] == orig[id];
      assert ListCalls(orig, id + 1) == ListCalls(orig, id) + ShowCalls(orig[id].vms);
      var cur' := cur[id := r];
      forall i | i in orig && i < id + 1
        ensures RefreshAt(orig, respond, h0, i).Ok? && cur'[i] == orig[i].(vms := RefreshAt(orig, respond, h0, i).value)
      {
      }
    }

    /**
     * The bookkeeping of one pass of `_actionList` that fails: the list stops at the cluster
     * under `id`, refreshed up to the failing VM.
     */
    lemma ListEntryStopped(cur: map<int, Cluster>, orig: map<int, Cluster>,
                           respond: (seq<Call>, Call) -> Option<string>, h0: seq<Call>,
                           id: int, r: Cluster, failure: Failure, h: seq<Call>)
      requires id in cur && ListedBelow(cur, orig, respond, h0, id)
      requires RefreshAt(orig, respond, h0, id) == Err(failure) && SameButStatus(cur[id], r)
      requires StoppedAt(cur[id].vms, respond, h0 + ListCalls(orig, id), r.vms, h, failure)
      ensures ListStopped(cur[id := r], orig, respond, h0, id, h, failure)
    {
      assert cur[id] == orig[id];
      assert r == orig[id].(vms := r.vms);
    }

    /** `_authenticateUser`: the request's hash is the digest of its timestamp followed by the password. */
    predicate Authentic(command: Command)
    {
      sha1(command.timestamp + passwd) == command.passwd
    }

    /**
     * `run`: answer 400 without a command and 451 without valid credentials, dispatch
     * commands 0, 1 and 2 to create, destroy and list, and answer 401 to any other.
     * Salt `salt(k)` stands for the random number drawn for the k-th requested network.
     */
    method Run(command: Option<Command>, salt: nat -> string, be: Backend) returns (r: Result<Reply>)
      modifies this, be
      requires Valid()
      ensures Valid()
      ensures nextId == old(nextId) || nextId == old(nextId) + 1
      ensures forall id :: id in clusters ==> id in old(clusters) || id == old(nextId)
      ensures r.Ok? ==> r.value.code in {0, 400, 401, 402, 403, 451, 501}
      ensures command.None? ==> (r == Ok(Reply(400, "No command found", []))
        && unchanged(this) && be.history == old(be.history))
      ensures r.Ok? && r.value.code == 451 <==> command.Some? && !Authentic(command.value)
      ensures command.Some? && !Authentic(command.value) ==> (r == Ok(Reply(451, "Authentication failed", []))
        && unchanged(this) && be.history == old(be.history))
      ensures command.Some? && Authentic(command.value) && command.value.commId !in {0, 1, 2} ==>
        (r == Ok(Reply(401, "Undefined Command", [])) && unchanged(this) && be.history == old(be.history))
      ensures command.Some? && Authentic(command.value) && command.value.commId == 0 ==>
        if r.Ok? && r.value.code == 0
        then command.value.cluster.Some? && |r.value.clusters| == 1 && r.value.clusters[0].id == old(nextId)
          && CreateOutcome(command.value.cluster.value, salt, be.respond, old(be.history), old(nextId))
             == Ok(r.value.clusters[0])
          && clusters == old(clusters)[old(nextId) := r.value.clusters[0]] && nextId == old(nextId) + 1
        else clusters == old(clusters) && nextId == old(nextId)
      ensures command.Some? && Authentic(command.value) && command.value.commId == 0 && command.value.cluster.Some?
        ==> (r.Ok? && r.value.code == 0 <==>
          CreateOutcome(command.value.cluster.value, salt, be.respond, old(be.history), old(nextId)).Ok?)
      ensures command.Some? && Authentic(command.value) && command.value.commId == 0 ==>
        NoDeletesSince(old(be.history), be.history)
      ensures command.Some? && Authentic(command.value) && command.value.commId == 1 ==>
        nextId == old(nextId)
        && if r.Ok? && r.value.code == 0
           then exists id :: (id in old(clusters) && clusters == old(clusters) - {id}
             && be.history == old(be.history) + DestroyCalls(old(clusters)[id]))
           else clusters == old(clusters)
      ensures (command.Some? && Authentic(command.value) && command.value.commId == 1
               && |command.value.generalArgs| == 1 && ParseInt(command.value.generalArgs[0]).Some?
               && ParseInt(command.value.generalArgs[0]).value in old(clusters)) ==>
        (var id := ParseInt(command.value.generalArgs[0]).value;
         (r == Ok(Reply(0, "Successful", [])) <==> Launches(be.respond, old(be.history), DestroyCalls(old(clusters)[id])))
         && (r == Ok(Reply(0, "Successful", [])) ==> clusters == old(clusters) - {id}))
      ensures command.Some? && Authentic(command.value) && command.value.commId == 2 ==>
        nextId == old(nextId) && clusters.Keys == old(clusters).Keys
        && (r.Ok? <==> forall id :: id in old(clusters) ==> RefreshAt(old(clusters), be.respond, old(be.history), id).Ok?)
        && (r.Ok? ==> (ListedBelow(clusters, old(clusters), be.respond, old(be.history), nextId)
          && r.value == Reply(0, "Successful", Snapshot(clusters, nextId))))
    {
      if command.None? {
        return Ok(Reply(400, "No command found", []));
      }
      var cmd := command.value;
      if !Authentic(cmd) {
        return Ok(Reply(451, "Authentication failed", []));
      }
      if cmd.commId == 0 {
        r := ActionCreate(cmd.cluster, salt, be);
      } else if cmd.commId == 1 {
        r := ActionDestroy(cmd.generalArgs, be);
      } else if cmd.commId == 2 {
        r := ActionList(be);
      } else {
        r := Ok(Reply(401, "Undefined Command", []));
      }
    }
  }
}
