/** One configuration file, byte by byte: the format that scripts/config_converter.py writes on a
    little-endian machine, with a child, a number, a string and a blob. */
module ConfigSample {
  import opened Bytes
  import opened ConfigFormat

  const LEAF := Node([107], [], [Attribute([110], Numeric(258)), Attribute([98], Binary([7]))])
  const ROOT := Node([], [LEAF], [Attribute([97], Ascii([104, 105]))])

  function RootBlock(): seq<byte> {
    [2, 0, 0, 0]
    + [1, 1, 0, 0, 0, 107, 37, 0, 0, 0, 0, 0, 0, 0]
    + [2, 1, 0, 0, 0, 97, 1, 2, 0, 0, 0, 76, 0, 0, 0, 0, 0, 0, 0]
  }

  function LeafBlock(): seq<byte> {
    [2, 0, 0, 0]
    + ([2, 1, 0, 0, 0, 110, 0, 2, 1, 0, 0, 0, 0, 0, 0]
       + [2, 1, 0, 0, 0, 98, 3, 1, 0, 0, 0, 75, 0, 0, 0, 0, 0, 0, 0])
  }

  lemma Bytes4(n: nat, w: nat)
    requires n < 256 && w == 4
    ensures LittleEndian(n, w) == [n, 0, 0, 0]
  {
    assert LittleEndian(0, w - 4) == [];
    assert LittleEndian(0, w - 3) == [0] && LittleEndian(0, w - 2) == [0, 0] && LittleEndian(0, w - 1) == [0, 0, 0];
  }

  lemma Bytes8(n: nat, w: nat)
    requires n < 0x1_0000 && w == 8
    ensures LittleEndian(n, w) == [n % 256, n / 256, 0, 0, 0, 0, 0, 0]
  {
    assert LittleEndian(0, w - 8) == [];
    assert LittleEndian(0, w - 7) == [0] && LittleEndian(0, w - 6) == [0, 0];
    assert LittleEndian(0, w - 5) == [0, 0, 0] && LittleEndian(0, w - 4) == [0, 0, 0, 0];
    assert LittleEndian(0, w - 3) == [0, 0, 0, 0, 0] && LittleEndian(0, w - 2) == [0, 0, 0, 0, 0, 0];
    assert LittleEndian(n / 256, w - 1) == [n / 256] + LittleEndian(0, w - 2);
  }

  lemma Ints()
    ensures Int32(1) == [1, 0, 0, 0] && Int32(2) == [2, 0, 0, 0]
    ensures Int64(37) == [37, 0, 0, 0, 0, 0, 0, 0] && Int64(75) == [75, 0, 0, 0, 0, 0, 0, 0]
    ensures Int64(76) == [76, 0, 0, 0, 0, 0, 0, 0] && Int64(258) == [2, 1, 0, 0, 0, 0, 0, 0]
  {
    hide LittleEndian;
    Bytes4(1, 4);
    Bytes4(2, 4);
    Bytes8(37, 8);
    Bytes8(75, 8);
    Bytes8(76, 8);
    Bytes8(258, 8);
  }

  lemma LeafSizes(attrs: seq<Attribute>, nodes: seq<Node>)
    requires attrs == LEAF.attributes && nodes == LEAF.children
    ensures OwnSize(LEAF) == Size(LEAF) == 38 && Data(LEAF) == [7]
    ensures AttributesData(attrs, 0) == AttributesData(attrs, 1) == [] && AttributesData(attrs, 2) == [7]
  {
    assert AttributesSize(attrs, 0) == 0 && AttributesSize(attrs, 1) == 15 && AttributesSize(attrs, 2) == 34;
    assert EntriesSize(nodes, 0) == 0 && SizeAll(nodes, 0) == 0 && DataAll(nodes, 0) == [];
    assert AttributesData(attrs, 0) == [] && AttributesData(attrs, 1) == [] && AttributesData(attrs, 2) == [7];
  }

  lemma NumberField(a: Attribute, d: nat)
    requires a == Attribute([110], Numeric(258))
    ensures AttributeField(a, d) == [2, 1, 0, 0, 0, 110, 0, 2, 1, 0, 0, 0, 0, 0, 0]
  {
    hide Int32, Int64;
    Ints();
  }

  lemma BlobField(a: Attribute, d: nat)
    requires a == Attribute([98], Binary([7])) && d == 75
    ensures AttributeField(a, d) == [2, 1, 0, 0, 0, 98, 3, 1, 0, 0, 0, 75, 0, 0, 0, 0, 0, 0, 0]
  {
    hide Int32, Int64;
    Ints();
  }

  lemma LeafFields(attrs: seq<Attribute>, d: nat)
    requires attrs == LEAF.attributes && d == 75
    ensures AttributeFields(attrs, 2, d)
         == [2, 1, 0, 0, 0, 110, 0, 2, 1, 0, 0, 0, 0, 0, 0]
            + [2, 1, 0, 0, 0, 98, 3, 1, 0, 0, 0, 75, 0, 0, 0, 0, 0, 0, 0]
  {
    hide AttributeField;
    LeafSizes(attrs, []);
    NumberField(attrs[0], d);
    BlobField(attrs[1], d);
    assert AttributeFields(attrs, 0, d) == [];
    assert AttributeFields(attrs, 1, d) == AttributeField(attrs[0], d);
  }

  lemma LeafBytes(attrs: seq<Attribute>, nodes: seq<Node>, d: nat)
    requires attrs == LEAF.attributes && nodes == LEAF.children && d == 75
    ensures Blocks(LEAF, 37, d) == LeafBlock()
  {
    hide Int32, Int64, AttributeFields, OwnSize;
    Ints();
    LeafSizes(attrs, nodes);
    LeafFields(attrs, d);
    assert DataAll(nodes, 0) == [] && ChildFields(nodes, 0, 75) == [] && BlocksAll(nodes, 0, 75, d) == [];
  }

  lemma RootSizes(attrs: seq<Attribute>, nodes: seq<Node>)
    requires attrs == ROOT.attributes && nodes == ROOT.children
    ensures OwnSize(ROOT) == 37 && Size(ROOT) == 75 && Data(ROOT) == [7, 104, 105]
    ensures DataAll(nodes, 0) == [] && DataAll(nodes, 1) == [7] && SizeAll(nodes, 0) == 0
  {
    hide OwnSize, Size, Data;
    LeafSizes(LEAF.attributes, LEAF.children);
    RootOwnSize(attrs, nodes);
    assert SizeAll(nodes, 0) == 0 && SizeAll(nodes, 1) == 38;
    assert DataAll(nodes, 0) == [] && DataAll(nodes, 1) == [7];
    RootTotals(attrs, nodes);
  }

  lemma RootOwnSize(attrs: seq<Attribute>, nodes: seq<Node>)
    requires attrs == ROOT.attributes && nodes == ROOT.children
    ensures OwnSize(ROOT) == 37
  {
    assert AttributesSize(attrs, 0) == 0 && AttributesSize(attrs, 1) == 19;
    assert EntriesSize(nodes, 0) == 0 && EntriesSize(nodes, 1) == 14;
  }

  lemma RootTotals(attrs: seq<Attribute>, nodes: seq<Node>)
    requires attrs == ROOT.attributes && nodes == ROOT.children && OwnSize(ROOT) == 37
    requires SizeAll(nodes, 1) == 38 && DataAll(nodes, 1) == [7]
    ensures Size(ROOT) == 75 && Data(ROOT) == [7, 104, 105]
  {
    hide OwnSize, SizeAll, DataAll;
    assert AttributesData(attrs, 0) == [] && AttributesData(attrs, 1) == [104, 105];
  }

  lemma RootBytes(attrs: seq<Attribute>, nodes: seq<Node>, d: nat)
    requires attrs == ROOT.attributes && nodes == ROOT.children && d == 75
    ensures Block(ROOT, 0, d) == RootBlock()
  {
    hide Int32, Int64, OwnSize, Size, Data;
    Ints();
    RootSizes(attrs, nodes);
    assert ChildFields(nodes, 0, 37) == [];
    assert ChildFields(nodes, 1, 37) == [1, 1, 0, 0, 0, 107, 37, 0, 0, 0, 0, 0, 0, 0];
    assert AttributesData(attrs, 0) == [] && AttributeFields(attrs, 0, 76) == [];
    assert AttributeFields(attrs, 1, 76) == [2, 1, 0, 0, 0, 97, 1, 2, 0, 0, 0, 76, 0, 0, 0, 0, 0, 0, 0];
  }

  /** The root's block, the child's block behind it, and both blobs. */
  lemma SampleImage()
    ensures Image(ROOT) == RootBlock() + LeafBlock() + [7, 104, 105]
  {
    hide Block, Blocks, OwnSize, Size, Data, DataAll, SizeAll, RootBlock, LeafBlock;
    var nodes := ROOT.children;
    RootSizes(ROOT.attributes, nodes);
    RootBytes(ROOT.attributes, nodes, 75);
    LeafBytes(LEAF.attributes, LEAF.children, 75);
    ChildOnly(nodes, 37, 75);
    RootBlocks();
  }

  lemma ChildOnly(nodes: seq<Node>, p: nat, d: nat)
    requires nodes == [LEAF]
    ensures BlocksAll(nodes, 1, p, d) == Blocks(LEAF, p, d)
  {
    hide Blocks;
    assert BlocksAll(nodes, 0, p, d) == [] && SizeAll(nodes, 0) == 0 && DataAll(nodes, 0) == [];
  }

  lemma RootBlocks()
    ensures Blocks(ROOT, 0, 75) == Block(ROOT, 0, 75) + BlocksAll(ROOT.children, 1, OwnSize(ROOT), 75)
  {
    hide Block, BlocksAll, OwnSize;
  }
}
