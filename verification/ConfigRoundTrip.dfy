/** From the bytes of a configuration file back to a tree. `Decode` follows counts, lengths
    and offsets and keeps the order of entries; `LoadAt` is what the configuration server
    builds from the same bytes, with maps keyed by C strings. */
module ConfigRoundTrip {
  import opened Options
  import opened Bytes
  import opened ConfigFormat
  import opened ConfigReader
  import opened ConfigWriter

  const TWO_31 := 0x8000_0000
  const TWO_63 := 0x8000_0000_0000_0000

  /** How deep readItemsAt has to recurse. */
  function Height(node: Node): nat
    decreases node, 0
  {
    1 + HeightAll(node.children, |node.children|)
  }

  function HeightAll(nodes: seq<Node>, i: nat): nat
    requires i <= |nodes|
    decreases nodes, i
  {
    if i == 0 then 0
    else
      var h, rest := Height(nodes[i - 1]), HeightAll(nodes, i - 1);
      if h > rest then h else rest
  }

  // ---------------------------------------------------------------------------------------
  // The order-preserving decoder

  function DecodeValue(file: seq<byte>, item: Item): Option<Value> {
    match item
    case ChildItem(_, _) => None
    case NumericItem(_, n) => Some(Numeric(n))
    case BoolItem(_, flag) => Some(Bool(flag))
    case BlobItem(_, tag, offset, length) =>
      match ReadBytes(file, offset, length)
      case None => None
      case Some(blob) => Some(if tag == ASCII then Ascii(blob) else Binary(blob))
  }

  /** The attributes among the first i items. */
  function DecodeAttributes(file: seq<byte>, items: seq<Item>, i: nat): Option<seq<Attribute>>
    requires i <= |items|
  {
    if i == 0 then Some([])
    else
      var front := DecodeAttributes(file, items, i - 1);
      if front.None? || items[i - 1].ChildItem? then front
      else
        match DecodeValue(file, items[i - 1])
        case None => None
        case Some(v) => Some(front.value + [Attribute(items[i - 1].name, v)])
  }

  /** The tree whose root block is at q; fuel bounds the recursion on damaged files. */
  function Decode(file: seq<byte>, name: seq<byte>, q: nat, fuel: nat): Option<Node>
    decreases fuel, 0
  {
    if fuel == 0 then None
    else
      match ReadBlock(file, TWO_32, q)
      case None => None
      case Some(items) =>
        match (DecodeChildren(file, items, |items|, fuel - 1), DecodeAttributes(file, items, |items|))
        case (Some(children), Some(attributes)) => Some(Node(name, children, attributes))
        case _ => None
  }

  /** The children among the first i items. */
  function DecodeChildren(file: seq<byte>, items: seq<Item>, i: nat, fuel: nat): Option<seq<Node>>
    requires i <= |items|
    decreases fuel, i + 1
  {
    if i == 0 then Some([])
    else
      var front := DecodeChildren(file, items, i - 1, fuel);
      if front.None? || !items[i - 1].ChildItem? then front
      else
        match Decode(file, items[i - 1].name, items[i - 1].offset, fuel)
        case None => None
        case Some(child) => Some(front.value + [child])
  }

  /** The file holds node's blocks at p and its blobs at d. */
  ghost predicate Stored(file: seq<byte>, node: Node, p: nat, d: nat) {
    && Holds(file, p, Blocks(node, p, d))
    && Holds(file, d, Data(node))
    && Addressable(node, p, d)
  }

  ghost predicate StoredAll(file: seq<byte>, nodes: seq<Node>, i: nat, p: nat, d: nat)
    requires i <= |nodes|
  {
    && Holds(file, p, BlocksAll(nodes, i, p, d))
    && Holds(file, d, DataAll(nodes, i))
    && AllAddressable(nodes, i, p, d)
  }

  lemma StoredStep(file: seq<byte>, nodes: seq<Node>, i: nat, p: nat, d: nat)
    requires 0 < i <= |nodes| && StoredAll(file, nodes, i, p, d)
    ensures StoredAll(file, nodes, i - 1, p, d)
    ensures Stored(file, nodes[i - 1], p + SizeAll(nodes, i - 1), d + |DataAll(nodes, i - 1)|)
  {
    hide Holds, Blocks, Data, Size, Addressable;
    var p', d' := p + SizeAll(nodes, i - 1), d + |DataAll(nodes, i - 1)|;
    HoldsSplit(file, p, BlocksAll(nodes, i - 1, p, d), Blocks(nodes[i - 1], p', d'));
    HoldsSplit(file, d, DataAll(nodes, i - 1), Data(nodes[i - 1]));
  }

  lemma StoredParts(file: seq<byte>, node: Node, p: nat, d: nat)
    requires Stored(file, node, p, d)
    ensures var n := |node.children|;
            && Holds(file, p, Block(node, p, d))
            && StoredAll(file, node.children, n, p + OwnSize(node), d)
            && Holds(file, d + |DataAll(node.children, n)|, AttributesData(node.attributes, |node.attributes|))
  {
    hide Holds, Block, BlocksAll, DataAll, AttributesData, OwnSize, AllAddressable, BlobsAddressable;
    var children, attributes := node.children, node.attributes;
    HoldsSplit(file, p, Block(node, p, d), BlocksAll(children, |children|, p + OwnSize(node), d));
    HoldsSplit(file, d, DataAll(children, |children|), AttributesData(attributes, |attributes|));
  }

  lemma ChildItemAt(node: Node, p: nat, d: nat, i: nat)
    requires i < |node.children|
    ensures |BlockItems(node, p, d)| == |node.children| + |node.attributes|
    ensures BlockItems(node, p, d)[i] ==
            ChildItem(node.children[i].name, p + OwnSize(node) + SizeAll(node.children, i))
  {
    hide SizeAll, OwnSize;
  }

  lemma AttributeItemAt(node: Node, p: nat, d: nat, i: nat)
    requires i < |node.attributes|
    ensures |BlockItems(node, p, d)| == |node.children| + |node.attributes|
    ensures BlockItems(node, p, d)[|node.children| + i] ==
            AttributeItem(node.attributes[i],
                          d + |DataAll(node.children, |node.children|)| + |AttributesData(node.attributes, i)|)
  {
    hide SizeAll, OwnSize, DataAll, AttributesData;
  }

  lemma BlobBack(file: seq<byte>, a: Attribute, d: nat)
    requires Holds(file, d, Blob(a.value)) && ValueFits(a.value, TWO_32)
    ensures DecodeValue(file, AttributeItem(a, d)) == Some(a.value)
  {
  }

  /** DecodeAttributes, unfolded once. */
  lemma DecodeAttributesStep(file: seq<byte>, items: seq<Item>, i: nat)
    requires 0 < i <= |items|
    ensures var front, all := DecodeAttributes(file, items, i - 1), DecodeAttributes(file, items, i);
            if front.None? || items[i - 1].ChildItem? then all == front
            else
              match DecodeValue(file, items[i - 1])
              case None => all == None
              case Some(v) => all == Some(front.value + [Attribute(items[i - 1].name, v)])
  {
    hide DecodeValue;
  }

  lemma AttributeItemNames(a: Attribute, d: nat)
    ensures !AttributeItem(a, d).ChildItem? && AttributeItem(a, d).name == a.name
  {
  }

  lemma {:induction false} AttributesBack(file: seq<byte>, node: Node, p: nat, d: nat, i: nat)
    requires i <= |node.attributes| && Fits(node, TWO_32)
    requires |BlockItems(node, p, d)| == |node.children| + |node.attributes|
    requires Holds(file, d + |DataAll(node.children, |node.children|)|, AttributesData(node.attributes, i))
    ensures DecodeAttributes(file, BlockItems(node, p, d), |node.children| + i) == Some(node.attributes[..i])
    decreases i
  {
    hide Holds, BlockItems, DataAll, OwnSize, DecodeAttributes, DecodeValue, AttributeItem, ValueFits;
    var items := BlockItems(node, p, d);
    if i == 0 {
      NoAttributesYet(file, node, p, d, |node.children|);
    } else {
      var e := d + |DataAll(node.children, |node.children|)|;
      var blobs := AttributesData(node.attributes, i - 1);
      HoldsSplit(file, e, blobs, Blob(node.attributes[i - 1].value));
      AttributesBack(file, node, p, d, i - 1);
      AttributeItemAt(node, p, d, i - 1);
      BlobBack(file, node.attributes[i - 1], e + |blobs|);
      assert node.attributes[..i] == node.attributes[..i - 1] + [node.attributes[i - 1]];
      assert items[|node.children| + i - 1] == AttributeItem(node.attributes[i - 1], e + |blobs|);
      DecodeAttributesStep(file, items, |node.children| + i);
      AttributeItemNames(node.attributes[i - 1], e + |blobs|);
    }
  }

  lemma {:induction false} NoAttributesYet(file: seq<byte>, node: Node, p: nat, d: nat, i: nat)
    requires i <= |node.children| && |BlockItems(node, p, d)| == |node.children| + |node.attributes|
    ensures DecodeAttributes(file, BlockItems(node, p, d), i) == Some([])
    decreases i
  {
    hide BlockItems;
    if i > 0 {
      NoAttributesYet(file, node, p, d, i - 1);
      ChildItemAt(node, p, d, i - 1);
    }
  }

  lemma {:induction false} ChildrenBack(file: seq<byte>, node: Node, p: nat, d: nat, i: nat, fuel: nat)
    requires i <= |node.children| && Fits(node, TWO_32)
    requires |BlockItems(node, p, d)| == |node.children| + |node.attributes|
    requires StoredAll(file, node.children, i, p + OwnSize(node), d)
    requires HeightAll(node.children, i) <= fuel
    ensures DecodeChildren(file, BlockItems(node, p, d), i, fuel) == Some(node.children[..i])
    decreases node, 0, i
  {
    hide BlockItems, OwnSize, StoredAll, Stored, Decode, AttributeFits;
    if i > 0 {
      var k := p + OwnSize(node);
      StoredStep(file, node.children, i, k, d);
      ChildrenBack(file, node, p, d, i - 1, fuel);
      ChildItemAt(node, p, d, i - 1);
      TreeBack(file, node.children[i - 1], k + SizeAll(node.children, i - 1), d + |DataAll(node.children, i - 1)|,
               fuel);
      assert node.children[..i] == node.children[..i - 1] + [node.children[i - 1]];
    }
  }

  /** DecodeChildren, unfolded once. */
  lemma DecodeChildrenStep(file: seq<byte>, items: seq<Item>, i: nat, fuel: nat)
    requires 0 < i <= |items|
    ensures var front, all := DecodeChildren(file, items, i - 1, fuel), DecodeChildren(file, items, i, fuel);
            if front.None? || !items[i - 1].ChildItem? then all == front
            else
              match Decode(file, items[i - 1].name, items[i - 1].offset, fuel)
              case None => all == None
              case Some(child) => all == Some(front.value + [child])
  {
    hide Decode;
  }

  lemma {:induction false} NoMoreChildren(file: seq<byte>, node: Node, p: nat, d: nat, i: nat, fuel: nat)
    requires i <= |node.attributes| && |BlockItems(node, p, d)| == |node.children| + |node.attributes|
    requires DecodeChildren(file, BlockItems(node, p, d), |node.children|, fuel) == Some(node.children)
    ensures DecodeChildren(file, BlockItems(node, p, d), |node.children| + i, fuel) == Some(node.children)
    decreases i
  {
    hide BlockItems, DecodeChildren;
    if i > 0 {
      NoMoreChildren(file, node, p, d, i - 1, fuel);
      AttributeItemAt(node, p, d, i - 1);
      DecodeChildrenStep(file, BlockItems(node, p, d), |node.children| + i, fuel);
    }
  }

  /** Wherever a subtree is stored, decoding there gives it back. */
  lemma {:induction false} TreeBack(file: seq<byte>, node: Node, p: nat, d: nat, fuel: nat)
    requires Stored(file, node, p, d) && Fits(node, TWO_32) && Height(node) <= fuel
    ensures Decode(file, node.name, p, fuel) == Some(node)
    decreases node, 1
  {
    hide Holds, Stored, StoredAll, Block, BlockItems, OwnSize, DecodeChildren, DecodeAttributes, ReadBlock, Fits,
         Size, SizeAll, Data, DataAll, AttributesData, Blocks, BlocksAll, HeightAll;
    BlockItemsCount(node, p, d);
    StoredParts(file, node, p, d);
    StoredBounds(file, node, p, d);
    ReadBlockBack(file, TWO_32, node, p, d);
    ChildrenBack(file, node, p, d, |node.children|, fuel - 1);
    assert node.children[..|node.children|] == node.children;
    NoMoreChildren(file, node, p, d, |node.attributes|, fuel - 1);
    AttributesBack(file, node, p, d, |node.attributes|);
    assert node.attributes[..|node.attributes|] == node.attributes;
  }

  lemma StoredBounds(file: seq<byte>, node: Node, p: nat, d: nat)
    requires Stored(file, node, p, d)
    ensures Addressable(node, p, d)
    ensures p + OwnSize(node) + SizeAll(node.children, |node.children|) == p + Size(node)
  {
    hide SizeAll, OwnSize, Data, Blocks, Addressable;
  }

  lemma BlockItemsCount(node: Node, p: nat, d: nat)
    ensures |BlockItems(node, p, d)| == |node.children| + |node.attributes|
  {
    hide ChildItems, AttributeItems;
  }

  lemma ImageStored(root: Node)
    requires Addressable(root, 0, Size(root))
    ensures Stored(Image(root), root, 0, Size(root))
  {
    hide Blocks, Data, Size, Addressable;
    var file := Image(root);
    assert file[0..|file|] == file;
    HoldsSplit(file, 0, Blocks(root, 0, Size(root)), Data(root));
  }

  /** A block is never empty, so a tree is not higher than its blocks are long. */
  lemma {:induction false} HeightBelowSize(node: Node)
    ensures Height(node) <= Size(node)
    decreases node, 0
  {
    hide HeightAll, SizeAll;
    HeightAllBelowSize(node.children, |node.children|);
  }

  lemma {:induction false} HeightAllBelowSize(nodes: seq<Node>, i: nat)
    requires i <= |nodes|
    ensures HeightAll(nodes, i) <= SizeAll(nodes, i)
    decreases nodes, i
  {
    hide Height, Size;
    if i > 0 {
      HeightAllBelowSize(nodes, i - 1);
      HeightBelowSize(nodes[i - 1]);
    }
  }

  /** Decoding a whole file; no tree is nested deeper than its file is long. */
  function DecodeFile(file: seq<byte>, name: seq<byte>): Option<Node> {
    Decode(file, name, 0, |file|)
  }

  /** The round trip: decoding the file of a tree from byte 0 rebuilds exactly that tree. */
  lemma RoundTrip(root: Node)
    requires Fits(root, TWO_32) && Addressable(root, 0, Size(root))
    ensures DecodeFile(Image(root), root.name) == Some(root)
  {
    hide Stored, Image, Decode, Fits, Addressable, Height, Size;
    ImageStored(root);
    HeightBelowSize(root);
    TreeBack(Image(root), root, 0, Size(root), |Image(root)|);
  }

  /** The converter and the decoder together: a file is written exactly when everything fits
      its field, and reading it gives the tree back. */
  method WriteAndRead(root: Node) returns (ok: bool, bytes: seq<byte>)
    ensures ok <==> Fits(root, TWO_32) && Addressable(root, 0, Size(root))
    ensures ok ==> DecodeFile(bytes, root.name) == Some(root)
    ensures ok && Fits(root, TWO_31) && |bytes| < TWO_63 ==> LoadFile(bytes) == View(root)
  {
    hide Fits, Addressable, Size, Image, DecodeFile, LoadFile, View;
    bytes := [];
    var writer := new BinaryWriter(root);
    ok := writer.WriteFile();
    if ok {
      ghost var image := Image(root);
      while |bytes| in writer.file
        invariant |bytes| <= |image| && bytes == image[..|bytes|]
        decreases |image| - |bytes|
      {
        bytes := bytes + [writer.file[|bytes|]];
      }
      assert bytes == image;
      RoundTrip(root);
      if Fits(root, TWO_31) && |image| < TWO_63 {
        ServerRoundTrip(root);
      }
    }
  }

  // ---------------------------------------------------------------------------------------
  // The configuration server

  /** A node as the server keeps it. An attribute is None when asking for its data fails. */
  datatype Config = Config(children: map<seq<byte>, Config>, attributes: map<seq<byte>, Option<Value>>)

  /** A name as std::string sees it: the server passes a char* that ends at the first NUL. */
  function CString(name: seq<byte>): seq<byte> {
    if name == [] || name[0] == 0 then [] else [name[0]] + CString(name[1..])
  }

  /** Attribute::getData: the read size is compared as an int. */
  function GetData(file: seq<byte>, item: Item): Option<Value> {
    if item.BlobItem? && item.length >= TWO_31 then None else DecodeValue(file, item)
  }

  /** Node::addChild for each child among the first i items. */
  function ChildOffsets(items: seq<Item>, i: nat): map<seq<byte>, nat>
    requires i <= |items|
  {
    if i == 0 then map[]
    else
      var front := ChildOffsets(items, i - 1);
      if items[i - 1].ChildItem? then front[CString(items[i - 1].name) := items[i - 1].offset] else front
  }

  /** Node::addAttribute for each attribute among the first i items, with its data. */
  function LoadAttributes(file: seq<byte>, items: seq<Item>, i: nat): map<seq<byte>, Option<Value>>
    requires i <= |items|
  {
    if i == 0 then map[]
    else
      var front := LoadAttributes(file, items, i - 1);
      if items[i - 1].ChildItem? then front else front[CString(items[i - 1].name) := GetData(file, items[i - 1])]
  }

  /** Loader::readItemsAt */
  function LoadAt(file: seq<byte>, q: nat, fuel: nat): Config
    decreases fuel, 0
  {
    if fuel == 0 || q >= TWO_63 then Config(map[], map[])
    else
      match ReadBlock(file, TWO_31, q)
      case None => Config(map[], map[])
      case Some(items) =>
        Config(LoadChildren(file, ChildOffsets(items, |items|), fuel - 1), LoadAttributes(file, items, |items|))
  }

  function LoadChildren(file: seq<byte>, offsets: map<seq<byte>, nat>, fuel: nat): map<seq<byte>, Config>
    decreases fuel, 1
  {
    map name | name in offsets :: LoadAt(file, offsets[name], fuel)
  }

  /** What the server ought to show of a tree: each name stands for the last child, or the
      last attribute, that has it. */
  function View(node: Node): Config
    decreases node, 0
  {
    Config(ViewChildren(node.children, |node.children|), ViewAttributes(node.attributes, |node.attributes|))
  }

  function ViewChildren(nodes: seq<Node>, i: nat): map<seq<byte>, Config>
    requires i <= |nodes|
    decreases nodes, i
  {
    if i == 0 then map[] else ViewChildren(nodes, i - 1)[CString(nodes[i - 1].name) := View(nodes[i - 1])]
  }

  function ViewAttributes(attrs: seq<Attribute>, i: nat): map<seq<byte>, Option<Value>>
    requires i <= |attrs|
  {
    if i == 0 then map[] else ViewAttributes(attrs, i - 1)[CString(attrs[i - 1].name) := Some(attrs[i - 1].value)]
  }

  lemma {:induction false} ServerAttributesBack(file: seq<byte>, node: Node, p: nat, d: nat, i: nat)
    requires i <= |node.attributes| && Fits(node, TWO_31)
    requires |BlockItems(node, p, d)| == |node.children| + |node.attributes|
    requires Holds(file, d + |DataAll(node.children, |node.children|)|, AttributesData(node.attributes, i))
    ensures LoadAttributes(file, BlockItems(node, p, d), |node.children| + i) == ViewAttributes(node.attributes, i)
    decreases i
  {
    hide Holds, BlockItems, DataAll, OwnSize, CString;
    if i == 0 {
      NoServerAttributesYet(file, node, p, d, |node.children|);
    } else {
      var e := d + |DataAll(node.children, |node.children|)|;
      var blobs := AttributesData(node.attributes, i - 1);
      HoldsSplit(file, e, blobs, Blob(node.attributes[i - 1].value));
      ServerAttributesBack(file, node, p, d, i - 1);
      AttributeItemAt(node, p, d, i - 1);
      BlobBack(file, node.attributes[i - 1], e + |blobs|);
    }
  }

  lemma {:induction false} NoServerAttributesYet(file: seq<byte>, node: Node, p: nat, d: nat, i: nat)
    requires i <= |node.children| && |BlockItems(node, p, d)| == |node.children| + |node.attributes|
    ensures LoadAttributes(file, BlockItems(node, p, d), i) == map[]
    decreases i
  {
    hide BlockItems;
    if i > 0 {
      NoServerAttributesYet(file, node, p, d, i - 1);
      ChildItemAt(node, p, d, i - 1);
    }
  }

  lemma {:induction false} OffsetsComplete(node: Node, p: nat, d: nat, i: nat)
    requires i <= |node.attributes| && |BlockItems(node, p, d)| == |node.children| + |node.attributes|
    ensures ChildOffsets(BlockItems(node, p, d), |node.children| + i) ==
            ChildOffsets(BlockItems(node, p, d), |node.children|)
    decreases i
  {
    hide BlockItems;
    if i > 0 {
      OffsetsComplete(node, p, d, i - 1);
      AttributeItemAt(node, p, d, i - 1);
    }
  }

  lemma LoadChildrenUpdate(file: seq<byte>, offsets: map<seq<byte>, nat>, name: seq<byte>, q: nat, fuel: nat)
    ensures LoadChildren(file, offsets[name := q], fuel) ==
            LoadChildren(file, offsets, fuel)[name := LoadAt(file, q, fuel)]
  {
    hide LoadAt;
  }

  lemma {:induction false} ServerChildrenBack(file: seq<byte>, node: Node, p: nat, d: nat, i: nat, fuel: nat)
    requires i <= |node.children| && Fits(node, TWO_31)
    requires |BlockItems(node, p, d)| == |node.children| + |node.attributes|
    requires StoredAll(file, node.children, i, p + OwnSize(node), d)
    requires p + OwnSize(node) + SizeAll(node.children, i) < TWO_63
    requires HeightAll(node.children, i) <= fuel
    ensures LoadChildren(file, ChildOffsets(BlockItems(node, p, d), i), fuel) == ViewChildren(node.children, i)
    decreases node, 0, i
  {
    hide BlockItems, OwnSize, StoredAll, Stored, LoadAt, View, CString, AttributeFits;
    if i == 0 {
      assert LoadChildren(file, map[], fuel) == map[];
    } else {
      var k := p + OwnSize(node);
      var here := k + SizeAll(node.children, i - 1);
      StoredStep(file, node.children, i, k, d);
      ServerChildrenBack(file, node, p, d, i - 1, fuel);
      ChildItemAt(node, p, d, i - 1);
      ServerBack(file, node.children[i - 1], here, d + |DataAll(node.children, i - 1)|, fuel);
      var offsets := ChildOffsets(BlockItems(node, p, d), i - 1);
      LoadChildrenUpdate(file, offsets, CString(node.children[i - 1].name), here, fuel);
    }
  }

  lemma {:induction false} ServerBack(file: seq<byte>, node: Node, p: nat, d: nat, fuel: nat)
    requires Stored(file, node, p, d) && Fits(node, TWO_31) && Height(node) <= fuel
    requires p + Size(node) < TWO_63
    ensures LoadAt(file, p, fuel) == View(node)
    decreases node, 1
  {
    hide Holds, Stored, StoredAll, Block, BlockItems, OwnSize, LoadChildren, LoadAttributes, ReadBlock, Fits,
         Size, SizeAll, Data, DataAll, AttributesData, Blocks, BlocksAll, HeightAll, ChildOffsets,
         ViewChildren, ViewAttributes;
    BlockItemsCount(node, p, d);
    StoredParts(file, node, p, d);
    StoredBounds(file, node, p, d);
    ReadBlockBack(file, TWO_31, node, p, d);
    ServerChildrenBack(file, node, p, d, |node.children|, fuel - 1);
    OffsetsComplete(node, p, d, |node.attributes|);
    ServerAttributesBack(file, node, p, d, |node.attributes|);
  }

  /** Loader::load */
  function LoadFile(file: seq<byte>): Config {
    LoadAt(file, 0, |file|)
  }

  /** What the server loads from the converter's file is the view of the converter's tree. */
  lemma ServerRoundTrip(root: Node)
    requires Fits(root, TWO_31) && |Image(root)| < TWO_63
    ensures LoadFile(Image(root)) == View(root)
  {
    hide Image, Stored, View, LoadAt, Fits, Size, Height, Addressable;
    ImageSize(root);
    Below(root, 0, Size(root));
    ImageStored(root);
    HeightBelowSize(root);
    ServerBack(Image(root), root, 0, Size(root), |Image(root)|);
  }

  lemma ImageSize(root: Node)
    ensures |Image(root)| == Size(root) + |Data(root)|
  {
  }

  /** Child i is the last of the first n that the server knows as key. */
  ghost predicate LastNamed(nodes: seq<Node>, n: nat, key: seq<byte>, i: nat)
    requires n <= |nodes|
  {
    i < n && CString(nodes[i].name) == key && forall j :: i < j < n ==> CString(nodes[j].name) != key
  }

  /** A child is visible under its name unless a later sibling has the same C string for a
      name, and nothing else is visible. */
  lemma {:induction false} VisibleChildren(nodes: seq<Node>, n: nat, key: seq<byte>)
    requires n <= |nodes|
    ensures key in ViewChildren(nodes, n) <==> exists i: nat :: LastNamed(nodes, n, key, i)
    ensures forall i: nat :: LastNamed(nodes, n, key, i) ==> ViewChildren(nodes, n)[key] == View(nodes[i])
    decreases n
  {
    hide View, CString;
    if n > 0 {
      var m: nat := n - 1;
      VisibleChildren(nodes, m, key);
      if CString(nodes[m].name) == key {
        assert LastNamed(nodes, n, key, m);
      } else {
        assert forall i: nat :: LastNamed(nodes, n, key, i) <==> LastNamed(nodes, m, key, i);
      }
    }
  }

  /** Attribute i is the last of the first n that the server knows as key. */
  ghost predicate LastAttribute(attrs: seq<Attribute>, n: nat, key: seq<byte>, i: nat)
    requires n <= |attrs|
  {
    i < n && CString(attrs[i].name) == key && forall j :: i < j < n ==> CString(attrs[j].name) != key
  }

  /** An attribute is visible under its name, with its value, unless a later one has the same C
      string for a name, and nothing else is visible. */
  lemma {:induction false} VisibleAttributes(attrs: seq<Attribute>, n: nat, key: seq<byte>)
    requires n <= |attrs|
    ensures key in ViewAttributes(attrs, n) <==> exists i: nat :: LastAttribute(attrs, n, key, i)
    ensures forall i: nat :: LastAttribute(attrs, n, key, i) ==> ViewAttributes(attrs, n)[key] == Some(attrs[i].value)
    decreases n
  {
    hide CString;
    if n > 0 {
      var m: nat := n - 1;
      VisibleAttributes(attrs, m, key);
      if CString(attrs[m].name) == key {
        assert LastAttribute(attrs, n, key, m);
      } else {
        assert forall i: nat :: LastAttribute(attrs, n, key, i) <==> LastAttribute(attrs, m, key, i);
      }
    }
  }

  /** Attributes called a and a NUL b: the server shows one, called a, with the second's value. */
  lemma HiddenAttribute(v: Value, w: Value)
    ensures View(Node([], [], [Attribute([97], v), Attribute([97, 0, 98], w)])).attributes == map[[97] := Some(w)]
  {
    var attrs := [Attribute([97], v), Attribute([97, 0, 98], w)];
    var short, long: seq<byte> := [97], [97, 0, 98];
    assert short[1..] == [] && long[1..][0] == 0;
    assert CString(short[1..]) == [] && CString(long[1..]) == [];
    assert CString(short) == [97] && CString(long) == [97];
    assert ViewAttributes(attrs, 0) == map[];
    assert ViewAttributes(attrs, 1) == map[[97] := Some(v)];
    assert ViewAttributes(attrs, 2) == map[[97] := Some(w)];
  }
}
