/** A registered node (protocube/node/node.go). */
module Nodes {
  import opened PortAllocator

  /** The handle requests to a node go through; the token stands for the connection. */
  datatype NodeClient = NodeClient(token: nat)

  class Node {
    const id: string
    const name: string
    const client: NodeClient
    var drained: bool
    var allocator: Allocator?

    constructor (id: string, name: string, client: NodeClient, drained: bool, allocator: Allocator?)
      ensures this.id == id && this.name == name && this.client == client
      ensures this.drained == drained && this.allocator == allocator
    {
      this.id, this.name, this.client, this.drained, this.allocator := id, name, client, drained, allocator;
    }
  }
}
