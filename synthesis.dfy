/**
 * The pure steps of cluster creation: the lease addresses of a private network, the disk
 * entries and root device of a VM, its NIC entries, and the check of a backend create reply.
 */
module Synthesis {
  import opened Wrappers
  import opened Text
  import opened Types

  // ----- Private network leases -----

  /** `int(ipaddr.split(".")[3])`; None where the source raises (fewer than four fields, not a number). */
  function BaseOctet(base: string): Option<int>
  {
    var parts := Split(base, '.');
    if |parts| < 4 then None else ParseInt(parts[3])
  }

  /** `parts` with field `k` replaced by `v` (unchanged when there is no such field). */
  function SetField(parts: seq<string>, k: nat, v: string): seq<string>
  {
    if k < |parts| then parts[k := v] else parts
  }

  /** The address leased to VM `i` when the base's fourth field is `octet`: that field becomes `octet + i`. */
  function LeaseAddress(base: string, octet: int, i: int): string
  {
    Join(SetField(Split(base, '.'), 3, IntToString(octet + i)), '.')
  }

  /** The LEASES entries of a private network for `range(n)`; None where the source raises. */
  function Leases(base: string, n: int): Option<seq<string>>
  {
    if n <= 0 then Some([])
    else match BaseOctet(base)
      case None => None
      case Some(d) => Some(seq(n, i => LeaseAddress(base, d, i)))
  }

  /** The lease loop of the network template: one address per VM index, in index order. */
  method SynthesizeLeases(base: string, n: int) returns (leases: Option<seq<string>>)
    ensures leases == Leases(base, n)
  {
    var acc: seq<string> := [];
    var i := 0;
    while i < n
      invariant 0 <= i && (i <= n || i == 0)
      invariant |acc| == i
      invariant i > 0 ==> BaseOctet(base).Some?
      invariant forall k :: 0 <= k < i ==> acc[k] == LeaseAddress(base, BaseOctet(base).value, k)
    {
      // The source re-splits the base address on every iteration and makes no range check.
      var parts := Split(base, '.');
      if |parts| < 4 {
        return None;
      }
      var octet := ParseInt(parts[3]);
      if octet.None? {
        return None;
      }
      acc := acc + [Join(parts[3 := IntToString(octet.value + i)], '.')];
      i := i + 1;
    }
    if n > 0 {
      assert acc == seq(n, k => LeaseAddress(base, BaseOctet(base).value, k));
    }
    leases := Some(acc);
  }

  /** Lease `i` keeps every field of the base address but the fourth, which becomes `d + i`. */
  lemma {:induction false} LeaseFields(base: string, i: int)
    requires BaseOctet(base).Some?
    ensures |Split(LeaseAddress(base, BaseOctet(base).value, i), '.')| == |Split(base, '.')|
    ensures forall k :: 0 <= k < |Split(base, '.')| && k != 3 ==>
      Split(LeaseAddress(base, BaseOctet(base).value, i), '.')[k] == Split(base, '.')[k]
    ensures ParseInt(Split(LeaseAddress(base, BaseOctet(base).value, i), '.')[3]) == Some(BaseOctet(base).value + i)
  {
    var parts := Split(base, '.');
    var rendered := IntToString(BaseOctet(base).value + i);
    var fields := parts[3 := rendered];
    RenderingCharacters(BaseOctet(base).value + i);
    SplitPartsPlain(base, '.');
    assert forall k :: 0 <= k < |fields| ==> '.' !in fields[k];
    SplitJoin(fields, '.');
    ParseIntToString(BaseOctet(base).value + i);
  }

  /** The addresses `a.b.c.(d + i)` for `i` below `n`. */
  function DottedRun(a: string, b: string, c: string, d: int, n: nat): seq<string>
  {
    seq(n, i => Join([a, b, c, IntToString(d + i)], '.'))
  }

  /** For a base address a.b.c.d and n VMs, the leases are exactly a.b.c.(d+i) for i = 0 .. n-1. */
  lemma {:induction false} LeasesOfBase(a: string, b: string, c: string, d: int, n: int)
    requires '.' !in a && '.' !in b && '.' !in c
    requires n > 0
    ensures Leases(Join([a, b, c, IntToString(d)], '.'), n) == Some(DottedRun(a, b, c, d, n))
  {
    var base := Join([a, b, c, IntToString(d)], '.');
    FieldsOfBase(a, b, c, d);
    var want := DottedRun(a, b, c, d, n);
    forall i | 0 <= i < n
      ensures LeaseAddress(base, d, i) == want[i]
    {
      LeaseOfFields(a, b, c, d, i, base);
    }
    assert Leases(base, n) == Some(seq(n, i => LeaseAddress(base, d, i)));
    assert seq(n, i => LeaseAddress(base, d, i)) == want;
  }

  lemma FieldsOfBase(a: string, b: string, c: string, d: int)
    requires '.' !in a && '.' !in b && '.' !in c
    ensures Split(Join([a, b, c, IntToString(d)], '.'), '.') == [a, b, c, IntToString(d)]
    ensures BaseOctet(Join([a, b, c, IntToString(d)], '.')) == Some(d)
  {
    var fields := [a, b, c, IntToString(d)];
    RenderingCharacters(d);
    assert forall k :: 0 <= k < 4 ==> '.' !in fields[k];
    SplitJoin(fields, '.');
    ParseIntToString(d);
  }

  lemma LeaseOfFields(a: string, b: string, c: string, d: int, i: int, base: string)
    requires Split(base, '.') == [a, b, c, IntToString(d)]
    ensures LeaseAddress(base, d, i) == Join([a, b, c, IntToString(d + i)], '.')
  {
    assert SetField([a, b, c, IntToString(d)], 3, IntToString(d + i)) == [a, b, c, IntToString(d + i)];
  }

  /**
   * There is no range check on the fourth field: a base ending in 255 leases an address
   * ending in 256 to the second VM, whatever the first three fields are.
   */
  lemma NoOctetBoundCheck(a: string, b: string, c: string)
    requires '.' !in a && '.' !in b && '.' !in c
    ensures Leases(Join([a, b, c, "255"], '.'), 2) == Some([Join([a, b, c, "255"], '.'), Join([a, b, c, "256"], '.')])
  {
    assert IntToString(255) == "255" && IntToString(256) == "256";
    assert [a, b, c, IntToString(255)] == [a, b, c, "255"];
    assert [a, b, c, IntToString(255 + 1)] == [a, b, c, "256"];
    LeasesOfBase(a, b, c, 255, 2);
    var run := DottedRun(a, b, c, 255, 2);
    assert run == [run[0], run[1]];
  }

  // ----- Disks and the root device -----

  predicate IsRootMarked(d: DiskInfo)
  {
    d.isRoot != 0
  }

  /** `rootDevice` after the disk loop: the target of the last root-marked disk, "" if none is marked. */
  function RootDevice(disks: seq<DiskInfo>): string
  {
    if disks == [] then ""
    else if IsRootMarked(disks[|disks| - 1]) then disks[|disks| - 1].diskTarget
    else RootDevice(disks[..|disks| - 1])
  }

  /** With no root-marked disk the root device is "" (create answers 501); otherwise it is the
      target of the last root-marked disk. */
  lemma {:induction false} RootDeviceIsLastMarked(disks: seq<DiskInfo>)
    ensures (forall k :: 0 <= k < |disks| ==> !IsRootMarked(disks[k])) ==> RootDevice(disks) == ""
    ensures forall j :: (0 <= j < |disks| && IsRootMarked(disks[j])
      && (forall k :: j < k < |disks| ==> !IsRootMarked(disks[k]))
      ==> RootDevice(disks) == disks[j].diskTarget)
  {
    if disks != [] {
      var last := |disks| - 1;
      var prefix := disks[..last];
      RootDeviceIsLastMarked(prefix);
      assert forall k :: 0 <= k < last ==> prefix[k] == disks[k];
    }
  }

  /** A root device that is found is the target of a root-marked disk; so with no marked disk create answers 501. */
  lemma {:induction false} RootFromMarkedDisk(disks: seq<DiskInfo>)
    requires RootDevice(disks) != ""
    ensures exists j :: 0 <= j < |disks| && IsRootMarked(disks[j]) && disks[j].diskTarget == RootDevice(disks)
  {
    var last := |disks| - 1;
    if !IsRootMarked(disks[last]) {
      RootFromMarkedDisk(disks[..last]);
      var j :| 0 <= j < last && IsRootMarked(disks[..last][j]) && disks[..last][j].diskTarget == RootDevice(disks[..last]);
      assert disks[j] == disks[..last][j];
    }
  }

  const ImageDir := "/srv/cloud/images/"

  /** The `name:target` strings a VM records for its disks. */
  function DiskEntries(disks: seq<DiskInfo>): seq<string>
  {
    seq(|disks|, k requires 0 <= k < |disks| => disks[k].diskName + ":" + disks[k].diskTarget)
  }

  /** The DISK entries of a VM descriptor: each image under the image directory, with its target. */
  function DiskLines(disks: seq<DiskInfo>): seq<DiskLine>
  {
    seq(|disks|, k requires 0 <= k < |disks| => DiskLine(ImageDir + disks[k].diskName, disks[k].diskTarget))
  }

  /** The disk loop of a VM: one `name:target` string and one DISK entry per disk, in order, and the root device. */
  method SynthesizeDisks(disks: seq<DiskInfo>) returns (entries: seq<string>, lines: seq<DiskLine>, root: string)
    ensures |entries| == |disks| && |lines| == |disks|
    ensures forall k :: 0 <= k < |disks| ==> entries[k] == disks[k].diskName + ":" + disks[k].diskTarget
    ensures forall k :: 0 <= k < |disks| ==> lines[k] == DiskLine(ImageDir + disks[k].diskName, disks[k].diskTarget)
    ensures entries == DiskEntries(disks) && lines == DiskLines(disks)
    ensures root == RootDevice(disks)
  {
    entries, lines, root := [], [], "";
    var i := 0;
    while i < |disks|
      invariant 0 <= i <= |disks|
      invariant |entries| == i && |lines| == i
      invariant forall k :: 0 <= k < i ==> entries[k] == disks[k].diskName + ":" + disks[k].diskTarget
      invariant forall k :: 0 <= k < i ==> lines[k] == DiskLine(ImageDir + disks[k].diskName, disks[k].diskTarget)
      invariant root == RootDevice(disks[..i])
    {
      var disk := disks[i];
      lines := lines + [DiskLine(ImageDir + disk.diskName, disk.diskTarget)];
      entries := entries + [disk.diskName + ":" + disk.diskTarget];
      if disk.isRoot != 0 {
        root := disk.diskTarget;
      }
      assert disks[..i + 1][..i] == disks[..i];
      i := i + 1;
    }
    assert disks[..i] == disks;
    assert entries == DiskEntries(disks);
    assert lines == DiskLines(disks);
  }

  // ----- NICs -----

  /** `cluster.networks[name]`: the first entry with that name, None where the source raises KeyError. */
  function LookupNetwork(networks: seq<(string, NetSetting)>, name: string): (r: Option<NetSetting>)
    ensures r.None? <==> forall k :: 0 <= k < |networks| ==> networks[k].0 != name
    ensures r.Some? ==> exists k :: (0 <= k < |networks| && networks[k] == (name, r.value)
      && forall j :: 0 <= j < k ==> networks[j].0 != name)
  {
    if networks == [] then None
    else if networks[0].0 == name then Some(networks[0].1)
    else
      var r := LookupNetwork(networks[1..], name);
      assert r.Some? ==> exists k :: (1 <= k < |networks| && networks[k] == (name, r.value)
        && forall j :: 0 <= j < k ==> networks[j].0 != name) by {
        if r.Some? {
          var k :| 0 <= k < |networks[1..]| && networks[1..][k] == (name, r.value)
            && forall j :: 0 <= j < k ==> networks[1..][j].0 != name;
          assert networks[k + 1] == (name, r.value);
          assert forall j :: 1 <= j < k + 1 ==> networks[j] == networks[1..][j - 1];
        }
      }
      r
  }

  /**
   * The NIC entry for one network name of a VM template: a public network is attached with
   * its configured address, a private one by its synthesized name with the IP left for later;
   * None where the source raises KeyError.
   */
  function NicFor(networks: seq<(string, NetSetting)>, nameMap: map<string, string>, nic: string): Option<NicLine>
  {
    match LookupNetwork(networks, nic)
    case None => None
    case Some(setting) =>
      if setting.kind == "public" then Some(NicWithIp("public-vnet", setting.address))
      else if nic in nameMap then Some(Nic(nameMap[nic]))
      else None
  }

  /** The IP recorded for a NIC before the leases are read back. */
  function NicIp(line: NicLine): string
  {
    if line.NicWithIp? then line.ip else NotAvailable
  }

  /** The NIC entries for `names`, when every one of them resolves. */
  function NicLines(networks: seq<(string, NetSetting)>, nameMap: map<string, string>, names: seq<string>): seq<NicLine>
    requires forall k :: 0 <= k < |names| ==> NicFor(networks, nameMap, names[k]).Some?
  {
    seq(|names|, k requires 0 <= k < |names| => NicFor(networks, nameMap, names[k]).value)
  }

  /** The network each NIC entry attaches to. */
  function NicNetworks(lines: seq<NicLine>): seq<string>
  {
    seq(|lines|, k requires 0 <= k < |lines| => lines[k].network)
  }

  /** The IP each NIC entry fixes, "N/A" where the backend assigns it. */
  function NicIps(lines: seq<NicLine>): seq<string>
  {
    seq(|lines|, k requires 0 <= k < |lines| => NicIp(lines[k]))
  }

  /** The NIC loop of a VM: one entry, network name and IP per network name, in order. */
  method ResolveNics(names: seq<string>, networks: seq<(string, NetSetting)>, nameMap: map<string, string>)
    returns (ok: bool, lines: seq<NicLine>, networkNames: seq<string>, ips: seq<string>)
    ensures ok <==> forall k :: 0 <= k < |names| ==> NicFor(networks, nameMap, names[k]).Some?
    ensures ok ==> |lines| == |names| && |networkNames| == |names| && |ips| == |names|
    ensures ok ==> forall k :: 0 <= k < |names| ==>
      NicFor(networks, nameMap, names[k]) == Some(lines[k])
      && networkNames[k] == lines[k].network && ips[k] == NicIp(lines[k])
    ensures ok ==> (lines == NicLines(networks, nameMap, names)
      && networkNames == NicNetworks(lines) && ips == NicIps(lines))
  {
    lines, networkNames, ips := [], [], [];
    var i := 0;
    while i < |names|
      invariant 0 <= i <= |names|
      invariant |lines| == i && |networkNames| == i && |ips| == i
      invariant forall k :: 0 <= k < i ==>
        NicFor(networks, nameMap, names[k]) == Some(lines[k])
        && networkNames[k] == lines[k].network && ips[k] == NicIp(lines[k])
    {
      var setting := LookupNetwork(networks, names[i]);
      if setting.None? {
        return false, lines, networkNames, ips;
      }
      var line: NicLine;
      if setting.value.kind == "public" {
        line := NicWithIp("public-vnet", setting.value.address);
        networkNames, ips := networkNames + ["public-vnet"], ips + [setting.value.address];
      } else {
        if names[i] !in nameMap {
          return false, lines, networkNames, ips;
        }
        line := Nic(nameMap[names[i]]);
        networkNames, ips := networkNames + [nameMap[names[i]]], ips + [NotAvailable];
      }
      lines := lines + [line];
      i := i + 1;
    }
    ok := true;
    assert lines == NicLines(networks, nameMap, names);
    assert networkNames == NicNetworks(lines) && ips == NicIps(lines);
  }

  // ----- The reply of `onevnet create` / `onevm create` -----

  /** The outcome of the sanity check on a create reply. */
  datatype Ack = NotAnId | NoIdToken | IdToken(token: string)

  /**
   * `output.strip("\n").split(" ")`: a first token other than "ID:" is a failed create; a
   * missing second token raises IndexError; otherwise the second token is the new id.
   */
  function CheckReply(output: string): Ack
  {
    var outputs := Split(Strip(output, {'\n'}), ' ');
    if outputs[0] != "ID:" then NotAnId
    else if |outputs| < 2 then NoIdToken
    else IdToken(outputs[1])
  }

  /** The backend's "ID: <id>" reply, with any trailing newlines, is accepted with that id. */
  lemma {:induction false} CheckReplyAccepts(token: string, newlines: string)
    requires ' ' !in token && '\n' !in token
    requires forall k :: 0 <= k < |newlines| ==> newlines[k] == '\n'
    ensures CheckReply("ID: " + token + newlines) == IdToken(token)
  {
    var s := "ID: " + token;
    assert s[|s| - 1] != '\n' by {
      if token == [] {
        assert s == "ID: ";
      } else {
        assert s[|s| - 1] == token[|token| - 1];
      }
    }
    StripPadded("", s, newlines, {'\n'});
    assert "" + s + newlines == "ID: " + token + newlines;
    SplitJoin(["ID:", token], ' ');
    assert Join(["ID:", token], ' ') == s;
  }

  /** A reply is accepted with an id only if, once stripped, it starts with "ID: " and that id. */
  lemma {:induction false} CheckReplyMeans(output: string, token: string)
    requires CheckReply(output) == IdToken(token)
    ensures ' ' !in token
    ensures "ID: " + token <= Strip(output, {'\n'})
  {
    var stripped := Strip(output, {'\n'});
    var parts := Split(stripped, ' ');
    JoinSplit(stripped, ' ');
    SplitPartsPlain(stripped, ' ');
    JoinStartsWithFirst(parts[1..], ' ');
    assert stripped == parts[0] + [' '] + Join(parts[1..], ' ');
  }

  lemma {:induction false} JoinStartsWithFirst(parts: seq<string>, sep: char)
    requires |parts| >= 1
    ensures parts[0] <= Join(parts, sep)
  {
  }
}
