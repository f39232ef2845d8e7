/** The nodes of a tree, as they are given to a writer and as reading makes them. */
module Nodes {
  import opened Wrappers
  import opened Bytes
  import opened CpioHeader
  import opened Instants

  type Perm = p: int | 0 <= p < 4096

  /** What is set of a node's metadata. */
  datatype Attrs = Attrs(
    created: Option<DateTime>, accessed: Option<DateTime>, modified: Option<DateTime>,
    permissions: Option<Perm>, owner: Option<(u32, u32)>, flags: Option<nat>)

  /** A file's content is in memory or read through a source; both hold its bytes. */
  datatype Content = InMemory(bytes: seq<byte>) | Streamed(bytes: seq<byte>)

  datatype NodeKind =
    | FileNode(content: Content)
    | DirNode
    | SymlinkNode(target: seq<byte>)
    | SpecialNode(fileType: FileType, device: Option<Device32>)

  datatype Node = Node(kind: NodeKind, attrs: Attrs) {
    function Type(): FileType {
      match kind
      case FileNode(_) => File
      case DirNode => Dir
      case SymlinkNode(_) => Symlink
      case SpecialNode(t, _) => t
    }

    predicate IsFile() {
      kind.FileNode?
    }

    predicate IsDir() {
      kind.DirNode?
    }

    /** Whether a tree takes the node: devices have a number, and nothing else has one. */
    predicate Checked() {
      match kind
      case SpecialNode(t, device) =>
        if device.Some? then t in {CharDevice, BlockDevice} else t in {Fifo, Socket}
      case _ => true
    }

    /** The bytes stored after the header. */
    function Payload(): seq<byte> {
      match kind
      case FileNode(content) => content.bytes
      case SymlinkNode(target) => target
      case _ => []
    }
  }

  const NO_ATTRS: Attrs := Attrs(None, None, None, None, None, None)
  const PLAIN_DIR: Node := Node(DirNode, NO_ATTRS)
  const NO_FILE: Node := Node(FileNode(InMemory([])), NO_ATTRS)
}
