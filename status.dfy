/**
 * Reading backend descriptions back: the LCM state of a VM as a name, the IP a network
 * leased to a VM, and the fill-in of the IP slots a create left open.
 */
module Status {
  import opened Wrappers
  import opened Text
  import opened Types

  // ----- VM status (`_extractVMStatusFromXml`) -----

  /** The names of the LCM states 0..16, in the backend's own spelling. */
  const LcmStateNames: seq<string> := [
    "LCM_INIT", "PROLOG", "BOOT", "RUNNING", "MIGRATE", "SAVE_STOP", "SAVE_SUSPEND",
    "SAVE_MIGRATE", "PROLOG_MIGRATE", "PROLOG_RESUME", "EPILOG_STOP", "EPILOG",
    "SHUTDOWN", "CANCEL", "FAILURE", "DELETE", "UNKOWN"]

  /** The name of an LCM state number; any number outside 0..16 is "N/A". */
  function StatusName(state: int): (name: string)
    ensures 0 <= state < |LcmStateNames| ==> name == LcmStateNames[state]
    ensures !(0 <= state < |LcmStateNames|) ==> name == NotAvailable
  {
    if state == 0 then "LCM_INIT"
    else if state == 1 then "PROLOG"
    else if state == 2 then "BOOT"
    else if state == 3 then "RUNNING"
    else if state == 4 then "MIGRATE"
    else if state == 5 then "SAVE_STOP"
    else if state == 6 then "SAVE_SUSPEND"
    else if state == 7 then "SAVE_MIGRATE"
    else if state == 8 then "PROLOG_MIGRATE"
    else if state == 9 then "PROLOG_RESUME"
    else if state == 10 then "EPILOG_STOP"
    else if state == 11 then "EPILOG"
    else if state == 12 then "SHUTDOWN"
    else if state == 13 then "CANCEL"
    else if state == 14 then "FAILURE"
    else if state == 15 then "DELETE"
    else if state == 16 then "UNKOWN"
    else NotAvailable
  }

  /** A status the translation can give: a state name or "N/A". */
  predicate KnownStatus(status: string)
  {
    status == NotAvailable || status in LcmStateNames
  }

  /** The characters `strip('\n ')` removes. */
  const NewlineSpace: set<char> := {'\n', ' '}

  /**
   * The status of a VM from the text of its LCM_STATE element: a missing element or text
   * that is not a number is caught and becomes "N/A", as does an unknown number.
   */
  function VmStatus(lcmState: Option<string>): (status: string)
    ensures KnownStatus(status)
  {
    match lcmState
    case None => NotAvailable
    case Some(text) =>
      match ParseInt(Strip(text, NewlineSpace))
      case None => NotAvailable
      case Some(state) => StatusName(state)
  }

  /** A missing LCM_STATE element, or one whose text is not a number, reads as "N/A". */
  lemma UnreadableStatus(lcmState: Option<string>)
    ensures lcmState.None? ==> VmStatus(lcmState) == NotAvailable
    ensures lcmState.Some? && ParseInt(Strip(lcmState.value, NewlineSpace)).None? ==> VmStatus(lcmState) == NotAvailable
  {
  }

  /** A state number written out in decimal, with padding, reads back as that state's name. */
  lemma {:induction false} StatusOfRenderedState(state: int, pre: string, post: string)
    requires forall k :: 0 <= k < |pre| ==> pre[k] in NewlineSpace
    requires forall k :: 0 <= k < |post| ==> post[k] in NewlineSpace
    ensures VmStatus(Some(pre + IntToString(state) + post)) == StatusName(state)
  {
    var s := IntToString(state);
    RenderingCharacters(state);
    NatToStringDigits(if state < 0 then -state else state);
    assert s != [];
    assert s[0] !in NewlineSpace by {
      assert s[0] !in Whitespace;
    }
    assert s[|s| - 1] !in NewlineSpace by {
      assert s[|s| - 1] !in Whitespace;
    }
    StripPadded(pre, s, post, NewlineSpace);
    ParseIntToString(state);
  }

  /** Two different states in 0..16 never share a name, and no state in range reads as "N/A". */
  lemma StatusNamesDistinct(a: int, b: int)
    requires 0 <= a < |LcmStateNames| && 0 <= b < |LcmStateNames|
    ensures StatusName(a) != NotAvailable
    ensures StatusName(a) == StatusName(b) ==> a == b
  {
  }

  // ----- Lease lookup (`_extractIPFromXmlByVID`) -----

  /** `ip` is what a search of `leases` for VM `vid` answers: the first match's IP, or "N/A". */
  predicate AnswersLeaseSearch(leases: seq<Lease>, vid: int, ip: string)
  {
    ((forall k :: 0 <= k < |leases| ==> leases[k].vid != vid) ==> ip == NotAvailable)
    && forall j :: (0 <= j < |leases| && leases[j].vid == vid
      && (forall k :: 0 <= k < j ==> leases[k].vid != vid)) ==> ip == leases[j].ip
  }

  /** An answer for the leases after a first one that does not match answers for all of them. */
  lemma SearchPastFirst(leases: seq<Lease>, vid: int, ip: string)
    requires leases != [] && leases[0].vid != vid && AnswersLeaseSearch(leases[1..], vid, ip)
    ensures AnswersLeaseSearch(leases, vid, ip)
  {
    var tail := leases[1..];
    assert forall k :: 0 <= k < |tail| ==> tail[k] == leases[k + 1];
    if forall k :: 0 <= k < |leases| ==> leases[k].vid != vid {
      assert forall k :: 0 <= k < |tail| ==> tail[k].vid != vid;
    }
    forall j | 1 <= j < |leases| && leases[j].vid == vid && (forall k :: 0 <= k < j ==> leases[k].vid != vid)
      ensures ip == leases[j].ip
    {
      assert tail[j - 1] == leases[j];
      assert forall k :: 0 <= k < j - 1 ==> tail[k].vid != vid;
    }
  }

  /** The IP of the first lease held by VM `vid`, or "N/A" when it holds none. */
  function LeaseIp(leases: seq<Lease>, vid: int): (ip: string)
    ensures (forall k :: 0 <= k < |leases| ==> leases[k].vid != vid) ==> ip == NotAvailable
    ensures forall j :: (0 <= j < |leases| && leases[j].vid == vid
      && (forall k :: 0 <= k < j ==> leases[k].vid != vid)) ==> ip == leases[j].ip
  {
    if leases == [] then NotAvailable
    else if leases[0].vid == vid then leases[0].ip
    else
      var rest := LeaseIp(leases[1..], vid);
      SearchPastFirst(leases, vid, rest);
      rest
  }

  /** The search loop over the LEASE elements, returning at the first match. */
  method ExtractIp(leases: seq<Lease>, vid: int) returns (ip: string)
    ensures ip == LeaseIp(leases, vid)
  {
    for i := 0 to |leases|
      invariant forall k :: 0 <= k < i ==> leases[k].vid != vid
    {
      if leases[i].vid == vid {
        return leases[i].ip;
      }
    }
    return NotAvailable;
  }

  // ----- IP fill-in (`_fillInNetworkInfo`, second half) -----

  /**
   * Whether every open slot of `vm` can be filled: each "N/A" slot among the first
   * `|networkNames|` names a network that was read back, and there are at least as many IP
   * slots as network names (otherwise the source raises KeyError or IndexError).
   */
  predicate Fillable(vm: VmInstance, infos: map<string, seq<Lease>>)
  {
    |vm.networkNames| <= |vm.ips|
    && forall k :: 0 <= k < |vm.networkNames| && vm.ips[k] == NotAvailable ==> vm.networkNames[k] in infos
  }

  /** The IP slot `k` of `vm` after the fill-in. */
  function FilledIp(vm: VmInstance, infos: map<string, seq<Lease>>, k: int): string
    requires Fillable(vm, infos) && 0 <= k < |vm.ips|
  {
    if k < |vm.networkNames| && vm.ips[k] == NotAvailable then LeaseIp(infos[vm.networkNames[k]], vm.id)
    else vm.ips[k]
  }

  /** The IP slots of `vm` after the fill-in. */
  function FilledIps(vm: VmInstance, infos: map<string, seq<Lease>>): seq<string>
    requires Fillable(vm, infos)
  {
    seq(|vm.ips|, k requires 0 <= k < |vm.ips| => FilledIp(vm, infos, k))
  }

  /**
   * The fill-in keeps the number of slots, leaves every slot that held an address as it
   * was (public networks among them), and puts the VM's lease into each slot that was open.
   */
  lemma FillOnlyOpenSlots(vm: VmInstance, infos: map<string, seq<Lease>>)
    requires Fillable(vm, infos)
    ensures |FilledIps(vm, infos)| == |vm.ips|
    ensures forall k :: 0 <= k < |vm.ips| && vm.ips[k] != NotAvailable ==> FilledIps(vm, infos)[k] == vm.ips[k]
    ensures forall k :: 0 <= k < |vm.networkNames| && vm.ips[k] == NotAvailable ==>
      FilledIps(vm, infos)[k] == LeaseIp(infos[vm.networkNames[k]], vm.id)
  {
  }

  /** The inner loop: overwrite the open slots of one VM in place. */
  method FillVm(vm: VmInstance, infos: map<string, seq<Lease>>) returns (r: Option<VmInstance>)
    ensures r.None? <==> !Fillable(vm, infos)
    ensures r.Some? ==> r.value == vm.(ips := FilledIps(vm, infos))
  {
    var ips := vm.ips;
    var i := 0;
    while i < |vm.networkNames|
      invariant 0 <= i <= |vm.networkNames|
      invariant |ips| == |vm.ips| && i <= |ips|
      invariant forall k :: 0 <= k < i && vm.ips[k] == NotAvailable ==> vm.networkNames[k] in infos
      invariant forall k :: 0 <= k < i ==>
        ips[k] == (if vm.ips[k] == NotAvailable then LeaseIp(infos[vm.networkNames[k]], vm.id) else vm.ips[k])
      invariant forall k :: i <= k < |ips| ==> ips[k] == vm.ips[k]
    {
      if i >= |ips| {
        return None;
      }
      if ips[i] == NotAvailable {
        if vm.networkNames[i] !in infos {
          return None;
        }
        var ip := ExtractIp(infos[vm.networkNames[i]], vm.id);
        ips := ips[i := ip];
      }
      i := i + 1;
    }
    assert Fillable(vm, infos);
    assert ips == FilledIps(vm, infos);
    return Some(vm.(ips := ips));
  }

  /** Every VM of `vms` with its open IP slots filled. */
  function FilledVms(vms: seq<VmInstance>, infos: map<string, seq<Lease>>): seq<VmInstance>
    requires forall j :: 0 <= j < |vms| ==> Fillable(vms[j], infos)
  {
    seq(|vms|, j requires 0 <= j < |vms| => vms[j].(ips := FilledIps(vms[j], infos)))
  }

  /** The outer loop over the VMs of a cluster; None where the source raises. */
  method FillIps(vms: seq<VmInstance>, infos: map<string, seq<Lease>>) returns (r: Option<seq<VmInstance>>)
    ensures r.None? <==> exists j :: 0 <= j < |vms| && !Fillable(vms[j], infos)
    ensures r.Some? ==> |r.value| == |vms|
    ensures r.Some? ==> forall j :: 0 <= j < |vms| ==> r.value[j] == vms[j].(ips := FilledIps(vms[j], infos))
    ensures r.Some? ==> r.value == FilledVms(vms, infos)
  {
    var out: seq<VmInstance> := [];
    for j := 0 to |vms|
      invariant |out| == j
      invariant forall i :: 0 <= i < j ==> Fillable(vms[i], infos) && out[i] == vms[i].(ips := FilledIps(vms[i], infos))
    {
      var filled := FillVm(vms[j], infos);
      if filled.None? {
        return None;
      }
      out := out + [filled.value];
    }
    assert out == FilledVms(vms, infos);
    return Some(out);
  }
}
