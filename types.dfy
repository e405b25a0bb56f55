/**
 * The values the command engine works on: the request a client sends, the cluster
 * bookkeeping it keeps, the abstract backend calls it issues, and the outcome of a request.
 */
module Types {
  import opened Wrappers

  /** One disk of a VM template: image name, mount target, and the root flag (`isRoot`). */
  datatype DiskInfo = DiskInfo(diskName: string, diskTarget: string, isRoot: int)

  /** One VM template of a request: name, memory, disks, and the names of the networks it attaches to. */
  datatype VmTemplate = VmTemplate(name: string, memory: int, disks: seq<DiskInfo>, networkNames: seq<string>)

  /** The value of `cluster.networks[name]`: the network type ("private", "public") and its address. */
  datatype NetSetting = NetSetting(kind: string, address: string)

  /**
   * The cluster a create request asks for. `networks` is the request's dictionary listed in
   * the order of its `keys()`; lookups take the first entry with the name (a dictionary's keys
   * are distinct, so that is the entry).
   */
  datatype ClusterSpec = ClusterSpec(vmNR: int, networks: seq<(string, NetSetting)>, vmTemplates: seq<VmTemplate>)

  /**
   * A client request: the timestamp and hash it authenticates with, the command number
   * (0 create, 1 destroy, 2 list), the cluster for a create and the arguments of a destroy.
   */
  datatype Command = Command(
    timestamp: string,
    passwd: string,
    commId: int,
    cluster: Option<ClusterSpec>,
    generalArgs: seq<string>)

  /** A network of a cluster: backend id, name, type, mode ("FIXED", "RANGED") and address. */
  datatype NetInstance = NetInstance(id: string, name: string, kind: string, mode: string, ip: string)

  /**
   * A VM of a cluster: backend id, name, memory, its `name:target` disk strings, and one
   * (network name, IP) pair per NIC kept as two parallel lists, as the source keeps them.
   */
  datatype VmInstance = VmInstance(
    id: int,
    name: string,
    memSize: int,
    disks: seq<string>,
    networkNames: seq<string>,
    ips: seq<string>,
    status: string)

  /** A tracked cluster (`vClusterInstance`). */
  datatype Cluster = Cluster(id: int, vmNR: int, vms: seq<VmInstance>, networks: seq<NetInstance>)

  /** The id the source records for a public network, which the backend never provisions. */
  const PublicNetId := "-1"

  /** The placeholder for an IP or status that is not known. */
  const NotAvailable := "N/A"

  /** A LEASE record of a network description: the VM id holding the lease and its IP. */
  datatype Lease = Lease(vid: int, ip: string)

  /**
   * What the engine reads out of a backend XML description: the LEASE records (network
   * descriptions) and the text of the LCM_STATE element if there is one (VM descriptions).
   */
  datatype Doc = Doc(leases: seq<Lease>, lcmState: Option<string>)

  /** One DISK entry of a VM template: image path and target. */
  datatype DiskLine = DiskLine(source: string, target: string)

  /** One NIC entry of a VM template: a bare network reference, or a network with its IP. */
  datatype NicLine = Nic(network: string) | NicWithIp(network: string, ip: string)

  /** The content of the template files and the arguments of the `onevnet`/`onevm` invocations. */
  datatype Call =
    | VnetCreate(netName: string, leases: seq<string>)
    | VmCreate(vmName: string, memory: int, root: string, disks: seq<DiskLine>, nics: seq<NicLine>)
    | VmDelete(vmId: int)
    | VnetDelete(netId: string)
    | VnetShow(showName: string)
    | VmShow(showId: int)

  /**
   * Why a step did not complete: a `commandEngineError` with its code, any other Python
   * exception (IndexError, KeyError, ValueError, an XML parse error), or the missing root
   * device that create answers with 501.
   */
  datatype Failure = EngineError(code: int) | Fault | NoRootDevice

  datatype Result<+T> = Ok(value: T) | Err(failure: Failure)

  /** `vmCommandResult`: return code, message and the clusters it carries. */
  datatype Reply = Reply(code: int, msg: string, clusters: seq<Cluster>)
}
