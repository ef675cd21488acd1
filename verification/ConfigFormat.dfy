/** The binary configuration format shared by scripts/config_converter.py, which writes it,
    and source/servers/configserver, which reads it back.

    This module gives the format without any file, position or seek: `Image` is the whole
    file as one sequence of bytes. Functions over lists take the list and how many of its
    first elements to cover, as the loops that append one element after the other do. */
module ConfigFormat {
  import opened Bytes

  const TYPE_NODE: byte := 1
  const TYPE_ATTRIBUTE: byte := 2

  const NUMERIC: byte := 0
  const ASCII: byte := 1
  const BOOL: byte := 2
  const BINARY: byte := 3

  datatype Value = Numeric(n: int) | Ascii(text: seq<byte>) | Bool(flag: bool) | Binary(data: seq<byte>)

  datatype Attribute = Attribute(name: seq<byte>, value: Value)

  datatype Node = Node(name: seq<byte>, children: seq<Node>, attributes: seq<Attribute>)

  // ---------------------------------------------------------------------------------------
  // Sizes

  /** Attribute.getSizeRequest */
  function ValueSize(v: Value): nat {
    match v
    case Numeric(_) => 9
    case Ascii(_) => 13
    case Bool(_) => 2
    case Binary(_) => 13
  }

  function AttributesSize(attrs: seq<Attribute>, i: nat): nat
    requires i <= |attrs|
  {
    if i == 0 then 0
    else AttributesSize(attrs, i - 1) + 5 + |attrs[i - 1].name| + ValueSize(attrs[i - 1].value)
  }

  function EntriesSize(nodes: seq<Node>, i: nat): nat
    requires i <= |nodes|
  {
    if i == 0 then 0 else EntriesSize(nodes, i - 1) + 13 + |nodes[i - 1].name|
  }

  /** Node.getSizeRequest( False ): the block of this node alone. */
  function OwnSize(node: Node): nat {
    4 + EntriesSize(node.children, |node.children|) + AttributesSize(node.attributes, |node.attributes|)
  }

  /** Node.getSizeRequest(): the blocks of the whole subtree. */
  function Size(node: Node): nat
    decreases node, 0
  {
    OwnSize(node) + SizeAll(node.children, |node.children|)
  }

  function SizeAll(nodes: seq<Node>, i: nat): nat
    requires i <= |nodes|
    decreases nodes, i
  {
    if i == 0 then 0 else SizeAll(nodes, i - 1) + Size(nodes[i - 1])
  }

  // ---------------------------------------------------------------------------------------
  // The data section: the blobs of the children come before the node's own

  function Blob(v: Value): seq<byte> {
    match v
    case Numeric(_) => []
    case Ascii(text) => text
    case Bool(_) => []
    case Binary(data) => data
  }

  function AttributesData(attrs: seq<Attribute>, i: nat): seq<byte>
    requires i <= |attrs|
  {
    if i == 0 then [] else AttributesData(attrs, i - 1) + Blob(attrs[i - 1].value)
  }

  function Data(node: Node): seq<byte>
    decreases node, 0
  {
    DataAll(node.children, |node.children|) + AttributesData(node.attributes, |node.attributes|)
  }

  function DataAll(nodes: seq<Node>, i: nat): seq<byte>
    requires i <= |nodes|
    decreases nodes, i
  {
    if i == 0 then [] else DataAll(nodes, i - 1) + Data(nodes[i - 1])
  }

  // ---------------------------------------------------------------------------------------
  // Node blocks

  function NameField(tag: byte, name: seq<byte>): (s: seq<byte>)
    ensures |s| == 5 + |name|
  {
    [tag] + Int32(|name|) + name
  }

  /** The value field; a blob is a length and its offset d in the file. */
  function ValueField(v: Value, d: nat): (s: seq<byte>)
    ensures |s| == ValueSize(v)
  {
    match v
    case Numeric(n) => [NUMERIC] + Int64(if n < 0 then 0 else n)
    case Ascii(text) => [ASCII] + Int32(|text|) + Int64(d)
    case Bool(flag) => [BOOL] + [if flag then 1 else 0]
    case Binary(data) => [BINARY] + Int32(|data|) + Int64(d)
  }

  function AttributeField(a: Attribute, d: nat): (s: seq<byte>)
    ensures |s| == 5 + |a.name| + ValueSize(a.value)
  {
    NameField(TYPE_ATTRIBUTE, a.name) + ValueField(a.value, d)
  }

  /** The attribute entries of a block whose own blobs start at d. */
  function AttributeFields(attrs: seq<Attribute>, i: nat, d: nat): (s: seq<byte>)
    requires i <= |attrs|
    ensures |s| == AttributesSize(attrs, i)
  {
    if i == 0 then []
    else AttributeFields(attrs, i - 1, d) + AttributeField(attrs[i - 1], d + |AttributesData(attrs, i - 1)|)
  }

  function ChildField(node: Node, p: nat): (s: seq<byte>)
    ensures |s| == 13 + |node.name|
  {
    NameField(TYPE_NODE, node.name) + Int64(p)
  }

  /** The child entries of a block whose first child's block is at p. */
  function ChildFields(nodes: seq<Node>, i: nat, p: nat): (s: seq<byte>)
    requires i <= |nodes|
    ensures |s| == EntriesSize(nodes, i)
  {
    if i == 0 then [] else ChildFields(nodes, i - 1, p) + ChildField(nodes[i - 1], p + SizeAll(nodes, i - 1))
  }

  /** The block of one node, for a subtree whose blocks start at p and whose blobs start at d. */
  function Block(node: Node, p: nat, d: nat): (s: seq<byte>)
    ensures |s| == OwnSize(node)
  {
    var children, attributes := node.children, node.attributes;
    Int32(|children| + |attributes|)
    + ChildFields(children, |children|, p + OwnSize(node))
    + AttributeFields(attributes, |attributes|, d + |DataAll(children, |children|)|)
  }

  function Blocks(node: Node, p: nat, d: nat): (s: seq<byte>)
    ensures |s| == Size(node)
    decreases node, 0
  {
    Block(node, p, d) + BlocksAll(node.children, |node.children|, p + OwnSize(node), d)
  }

  function BlocksAll(nodes: seq<Node>, i: nat, p: nat, d: nat): (s: seq<byte>)
    requires i <= |nodes|
    ensures |s| == SizeAll(nodes, i)
    decreases nodes, i
  {
    if i == 0 then []
    else
      BlocksAll(nodes, i - 1, p, d)
      + Blocks(nodes[i - 1], p + SizeAll(nodes, i - 1), d + |DataAll(nodes, i - 1)|)
  }

  /** The file: all node blocks, then all blobs. */
  function Image(root: Node): (s: seq<byte>)
    ensures |s| == Size(root) + |Data(root)|
  {
    Blocks(root, 0, Size(root)) + Data(root)
  }

  // ---------------------------------------------------------------------------------------
  // What fits the fields

  predicate ValueFits(v: Value, limit: nat) {
    match v
    case Numeric(n) => 0 <= n < TWO_64
    case Ascii(text) => |text| < limit
    case Bool(_) => false
    case Binary(data) => |data| < limit
  }

  predicate AttributeFits(a: Attribute, limit: nat) {
    |a.name| < limit && ValueFits(a.value, limit)
  }

  /** Every count and number below node has room in its field, every name and blob is shorter
      than limit, and no attribute is boolean: the writer's branch for those calls a method
      that does not exist. The writer's limit is 2^32. */
  predicate Fits(node: Node, limit: nat)
    decreases node
  {
    && |node.children| + |node.attributes| < TWO_32
    && (forall i :: 0 <= i < |node.children| ==> |node.children[i].name| < limit && Fits(node.children[i], limit))
    && (forall i :: 0 <= i < |node.attributes| ==> AttributeFits(node.attributes[i], limit))
  }

  /** A node with one boolean attribute, and nothing else, already fails. */
  lemma BooleanFails()
    ensures !Fits(Node([], [], [Attribute([], Bool(true))]), TWO_32)
  {
    var node := Node([], [], [Attribute([], Bool(true))]);
    assert !AttributeFits(node.attributes[0], TWO_32);
  }

  // ---------------------------------------------------------------------------------------
  // Which offsets fit their fields

  predicate HasBlob(v: Value) {
    v.Ascii? || v.Binary?
  }

  /** Every blob offset in the first i attribute entries fits 64 bits. */
  predicate BlobsAddressable(attrs: seq<Attribute>, i: nat, d: nat)
    requires i <= |attrs|
  {
    i == 0 ||
    (&& BlobsAddressable(attrs, i - 1, d)
     && (HasBlob(attrs[i - 1].value) ==> d + |AttributesData(attrs, i - 1)| < TWO_64))
  }

  /** Every offset in the blocks of a subtree fits 64 bits. */
  predicate Addressable(node: Node, p: nat, d: nat)
    decreases node, 0
  {
    && AllAddressable(node.children, |node.children|, p + OwnSize(node), d)
    && BlobsAddressable(node.attributes, |node.attributes|, d + |DataAll(node.children, |node.children|)|)
  }

  predicate AllAddressable(nodes: seq<Node>, i: nat, p: nat, d: nat)
    requires i <= |nodes|
    decreases nodes, i
  {
    i == 0 ||
    (&& AllAddressable(nodes, i - 1, p, d)
     && p + SizeAll(nodes, i - 1) < TWO_64
     && Addressable(nodes[i - 1], p + SizeAll(nodes, i - 1), d + |DataAll(nodes, i - 1)|))
  }

  lemma {:induction false} BlobsAddressablePrefix(attrs: seq<Attribute>, i: nat, n: nat, d: nat)
    requires i <= n <= |attrs| && BlobsAddressable(attrs, n, d)
    ensures BlobsAddressable(attrs, i, d)
    decreases n
  {
    if i < n {
      BlobsAddressablePrefix(attrs, i, n - 1, d);
    }
  }

  lemma {:induction false} AllAddressablePrefix(nodes: seq<Node>, i: nat, n: nat, p: nat, d: nat)
    requires i <= n <= |nodes| && AllAddressable(nodes, n, p, d)
    ensures AllAddressable(nodes, i, p, d)
    decreases n
  {
    hide Addressable;
    if i < n {
      AllAddressablePrefix(nodes, i, n - 1, p, d);
    }
  }

  lemma {:induction false} BlobsBelow(attrs: seq<Attribute>, i: nat, d: nat)
    requires i <= |attrs| && d + |AttributesData(attrs, i)| < TWO_64
    ensures BlobsAddressable(attrs, i, d)
    decreases i
  {
    if i > 0 {
      BlobsBelow(attrs, i - 1, d);
    }
  }

  /** In a file shorter than 2^64 bytes every offset fits. */
  lemma {:induction false} Below(node: Node, p: nat, d: nat)
    requires p + Size(node) < TWO_64 && d + |Data(node)| < TWO_64
    ensures Addressable(node, p, d)
    decreases node, 0
  {
    hide AllAddressable, BlobsAddressable, SizeAll, DataAll, AttributesData, OwnSize;
    AllBelow(node.children, |node.children|, p + OwnSize(node), d);
    BlobsBelow(node.attributes, |node.attributes|, d + |DataAll(node.children, |node.children|)|);
  }

  lemma {:induction false} AllBelow(nodes: seq<Node>, i: nat, p: nat, d: nat)
    requires i <= |nodes| && p + SizeAll(nodes, i) < TWO_64 && d + |DataAll(nodes, i)| < TWO_64
    ensures AllAddressable(nodes, i, p, d)
    decreases nodes, i
  {
    hide Addressable, Size, Data;
    if i > 0 {
      AllBelow(nodes, i - 1, p, d);
      Below(nodes[i - 1], p + SizeAll(nodes, i - 1), d + |DataAll(nodes, i - 1)|);
    }
  }
}
