/** Reading a configuration file back: source/servers/configserver/src/loader.cpp and
    attribute.cpp, node.cpp beside it.

    A node is read in two passes: first the entries of its block, in order, with children
    and blobs known only by their offsets, then each child at its offset. This module is the
    first pass and shows that it finds what the writer put there. */
module ConfigReader {
  import opened Options
  import opened Bytes
  import opened ConfigFormat

  // ---------------------------------------------------------------------------------------
  // Reading one field, one entry, one block

  /** File::read of a w-byte integer; a short read fails. */
  function ReadInt(file: seq<byte>, q: nat, w: nat): Option<nat> {
    if q + w <= |file| then Some(FromLittleEndian(file[q..q + w])) else None
  }

  function ReadBytes(file: seq<byte>, q: nat, n: nat): Option<seq<byte>> {
    if q + n <= |file| then Some(file[q..q + n]) else None
  }

  lemma ReadInt32(file: seq<byte>, q: nat, n: nat)
    requires Holds(file, q, Int32(n)) && n < TWO_32
    ensures ReadInt(file, q, 4) == Some(n)
  {
    FieldWidths();
    LittleEndianRoundTrip(n, WIDTH_32);
  }

  lemma ReadInt64(file: seq<byte>, q: nat, n: nat)
    requires Holds(file, q, Int64(n)) && n < TWO_64
    ensures ReadInt(file, q, 8) == Some(n)
  {
    FieldWidths();
    LittleEndianRoundTrip(n, WIDTH_64);
  }

  /** An entry as it stands in the block. */
  datatype Item =
    | ChildItem(name: seq<byte>, offset: nat)
    | NumericItem(name: seq<byte>, n: nat)
    | BlobItem(name: seq<byte>, tag: byte, offset: nat, length: nat)
    | BoolItem(name: seq<byte>, flag: bool)

  datatype Cursor<T> = Cursor(value: T, next: nat)

  /** Loader::readNode, readNumericAttribute, readBoolAttribute, readAsciiAttribute and
      readBinaryAttribute: what follows the name of an entry. */
  function ReadPayload(file: seq<byte>, q: nat, tag: byte, name: seq<byte>): Option<Cursor<Item>> {
    if tag == TYPE_NODE then
      match ReadInt(file, q, 8)
      case None => None
      case Some(offset) => Some(Cursor(ChildItem(name, offset), q + 8))
    else if tag == TYPE_ATTRIBUTE && q < |file| then
      ReadValue(file, q + 1, file[q], name)
    else
      None
  }

  function ReadValue(file: seq<byte>, q: nat, tag: byte, name: seq<byte>): Option<Cursor<Item>> {
    if tag == NUMERIC then
      match ReadInt(file, q, 8)
      case None => None
      case Some(n) => Some(Cursor(NumericItem(name, n), q + 8))
    else if tag == ASCII || tag == BINARY then
      match (ReadInt(file, q, 4), ReadInt(file, q + 4, 8))
      case (Some(length), Some(offset)) => Some(Cursor(BlobItem(name, tag, offset, length), q + 12))
      case _ => None
    else if tag == BOOL && q < |file| then
      Some(Cursor(BoolItem(name, file[q] != 0), q + 1))
    else
      None
  }

  /** Loader::readItem. A name of `limit` bytes or more cannot be read: the server keeps the
      length in an int. */
  function ReadItem(file: seq<byte>, limit: nat, q: nat): Option<Cursor<Item>> {
    if q >= |file| then None
    else
      match ReadInt(file, q + 1, 4)
      case None => None
      case Some(length) =>
        if length >= limit then None
        else
          match ReadBytes(file, q + 5, length)
          case None => None
          case Some(name) => ReadPayload(file, q + 5 + length, file[q], name)
  }

  /** The loop of Loader::readItemsAt after i turns. */
  function ReadItems(file: seq<byte>, limit: nat, q: nat, i: nat): Option<Cursor<seq<Item>>> {
    if i == 0 then Some(Cursor([], q))
    else
      match ReadItems(file, limit, q, i - 1)
      case None => None
      case Some(soFar) =>
        match ReadItem(file, limit, soFar.next)
        case None => None
        case Some(item) => Some(Cursor(soFar.value + [item.value], item.next))
  }

  function ReadBlock(file: seq<byte>, limit: nat, q: nat): Option<seq<Item>> {
    match ReadInt(file, q, 4)
    case None => None
    case Some(count) =>
      match ReadItems(file, limit, q + 4, count)
      case None => None
      case Some(items) => Some(items.value)
  }

  // ---------------------------------------------------------------------------------------
  // What the entries of a written block are

  function ChildItems(nodes: seq<Node>, i: nat, p: nat): (items: seq<Item>)
    requires i <= |nodes|
    ensures |items| == i
  {
    seq(i, j requires 0 <= j < i => ChildItem(nodes[j].name, p + SizeAll(nodes, j)))
  }

  function AttributeItem(a: Attribute, d: nat): Item {
    match a.value
    case Numeric(n) => NumericItem(a.name, if n < 0 then 0 else n)
    case Ascii(text) => BlobItem(a.name, ASCII, d, |text|)
    case Bool(flag) => BoolItem(a.name, flag)
    case Binary(data) => BlobItem(a.name, BINARY, d, |data|)
  }

  function AttributeItems(attrs: seq<Attribute>, i: nat, d: nat): (items: seq<Item>)
    requires i <= |attrs|
    ensures |items| == i
  {
    seq(i, j requires 0 <= j < i => AttributeItem(attrs[j], d + |AttributesData(attrs, j)|))
  }

  lemma ChildItemsStep(nodes: seq<Node>, i: nat, p: nat)
    requires i < |nodes|
    ensures ChildItems(nodes, i + 1, p) ==
            ChildItems(nodes, i, p) + [ChildItem(nodes[i].name, p + SizeAll(nodes, i))]
  {
    hide SizeAll;
  }

  lemma AttributeItemsStep(items: seq<Item>, attrs: seq<Attribute>, i: nat, d: nat)
    requires i < |attrs|
    ensures items + AttributeItems(attrs, i + 1, d) ==
            items + AttributeItems(attrs, i, d) + [AttributeItem(attrs[i], d + |AttributesData(attrs, i)|)]
  {
    hide AttributeItem, AttributesData;
  }

  lemma ReadNameBack(file: seq<byte>, limit: nat, q: nat, tag: byte, name: seq<byte>)
    requires Holds(file, q, NameField(tag, name)) && |name| < limit <= TWO_32
    ensures ReadItem(file, limit, q) == ReadPayload(file, q + 5 + |name|, tag, name)
  {
    hide ReadPayload, Int32;
    HoldsSplit(file, q, [tag] + Int32(|name|), name);
    HoldsSplit(file, q, [tag], Int32(|name|));
    ReadInt32(file, q + 1, |name|);
    assert file[q] == file[q..q + 1][0] == tag;
  }

  lemma ReadChildBack(file: seq<byte>, limit: nat, q: nat, node: Node, p: nat)
    requires Holds(file, q, ChildField(node, p)) && |node.name| < limit <= TWO_32 && p < TWO_64
    ensures ReadItem(file, limit, q) == Some(Cursor(ChildItem(node.name, p), q + 13 + |node.name|))
  {
    hide ReadItem, NameField, Int64;
    HoldsSplit(file, q, NameField(TYPE_NODE, node.name), Int64(p));
    ReadNameBack(file, limit, q, TYPE_NODE, node.name);
    ReadInt64(file, q + 5 + |node.name|, p);
  }

  lemma ReadValueBack(file: seq<byte>, q: nat, name: seq<byte>, v: Value, d: nat)
    requires Holds(file, q, ValueField(v, d)) && ValueFits(v, TWO_32) && (HasBlob(v) ==> d < TWO_64)
    ensures ReadPayload(file, q, TYPE_ATTRIBUTE, name) ==
            Some(Cursor(AttributeItem(Attribute(name, v), d), q + ValueSize(v)))
  {
    hide Int32, Int64;
    match v {
      case Numeric(n) =>
        HoldsSplit(file, q, [NUMERIC], Int64(n));
        ReadInt64(file, q + 1, n);
        assert file[q] == file[q..q + 1][0] == NUMERIC;
      case Ascii(text) =>
        ReadBlobBack(file, q, ASCII, |text|, d);
      case Binary(data) =>
        ReadBlobBack(file, q, BINARY, |data|, d);
    }
  }

  lemma ReadBlobBack(file: seq<byte>, q: nat, tag: byte, length: nat, d: nat)
    requires Holds(file, q, [tag] + Int32(length) + Int64(d)) && length < TWO_32 && d < TWO_64
    ensures q < |file| && file[q] == tag
    ensures ReadInt(file, q + 1, 4) == Some(length) && ReadInt(file, q + 5, 8) == Some(d)
  {
    hide Int32, Int64;
    HoldsSplit(file, q, [tag] + Int32(length), Int64(d));
    HoldsSplit(file, q, [tag], Int32(length));
    ReadInt32(file, q + 1, length);
    ReadInt64(file, q + 5, d);
    assert file[q] == file[q..q + 1][0] == tag;
  }

  lemma ReadAttributeBack(file: seq<byte>, limit: nat, q: nat, a: Attribute, d: nat)
    requires Holds(file, q, AttributeField(a, d)) && AttributeFits(a, limit) && limit <= TWO_32
    requires HasBlob(a.value) ==> d < TWO_64
    ensures ReadItem(file, limit, q) == Some(Cursor(AttributeItem(a, d), q + 5 + |a.name| + ValueSize(a.value)))
  {
    hide ReadItem, ReadPayload, NameField, ValueField;
    HoldsSplit(file, q, NameField(TYPE_ATTRIBUTE, a.name), ValueField(a.value, d));
    ReadNameBack(file, limit, q, TYPE_ATTRIBUTE, a.name);
    ReadValueBack(file, q + 5 + |a.name|, a.name, a.value, d);
  }

  lemma {:induction false} ReadChildrenBack(file: seq<byte>, limit: nat, q: nat, nodes: seq<Node>, i: nat,
                                            p: nat, d: nat)
    requires i <= |nodes| && Holds(file, q, ChildFields(nodes, i, p))
    requires AllAddressable(nodes, i, p, d) && limit <= TWO_32 && forall j :: 0 <= j < i ==> |nodes[j].name| < limit
    ensures ReadItems(file, limit, q, i) == Some(Cursor(ChildItems(nodes, i, p), q + EntriesSize(nodes, i)))
    decreases i
  {
    hide Holds, ChildField, ReadItem, ChildItems, Addressable, DataAll;
    if i == 0 {
      assert ChildItems(nodes, 0, p) == [];
    } else {
      ChildItemsStep(nodes, i - 1, p);
      var here := p + SizeAll(nodes, i - 1);
      HoldsSplit(file, q, ChildFields(nodes, i - 1, p), ChildField(nodes[i - 1], here));
      ReadChildrenBack(file, limit, q, nodes, i - 1, p, d);
      ReadChildBack(file, limit, q + EntriesSize(nodes, i - 1), nodes[i - 1], here);
    }
  }

  lemma {:induction false} ReadAttributesBack(file: seq<byte>, limit: nat, q: nat, items: seq<Item>, q': nat,
                                              attrs: seq<Attribute>, i: nat, d: nat)
    requires i <= |attrs| && Holds(file, q', AttributeFields(attrs, i, d))
    requires ReadItems(file, limit, q, |items|) == Some(Cursor(items, q'))
    requires BlobsAddressable(attrs, i, d) && limit <= TWO_32
    requires forall j :: 0 <= j < i ==> AttributeFits(attrs[j], limit)
    ensures ReadItems(file, limit, q, |items| + i) ==
            Some(Cursor(items + AttributeItems(attrs, i, d), q' + AttributesSize(attrs, i)))
    decreases i
  {
    hide Holds, AttributeField, ReadItem, AttributeFits, AttributeItems, AttributeItem;
    if i == 0 {
      assert items + AttributeItems(attrs, 0, d) == items;
    } else {
      AttributeItemsStep(items, attrs, i - 1, d);
      var here := d + |AttributesData(attrs, i - 1)|;
      HoldsSplit(file, q', AttributeFields(attrs, i - 1, d), AttributeField(attrs[i - 1], here));
      ReadAttributesBack(file, limit, q, items, q', attrs, i - 1, d);
      ReadAttributeBack(file, limit, q' + AttributesSize(attrs, i - 1), attrs[i - 1], here);
    }
  }

  function BlockItems(node: Node, p: nat, d: nat): seq<Item> {
    ChildItems(node.children, |node.children|, p + OwnSize(node))
    + AttributeItems(node.attributes, |node.attributes|, d + |DataAll(node.children, |node.children|)|)
  }

  lemma ReadBlockBack(file: seq<byte>, limit: nat, node: Node, p: nat, d: nat)
    requires Holds(file, p, Block(node, p, d)) && Fits(node, limit) && limit <= TWO_32
    requires Addressable(node, p, d)
    ensures ReadBlock(file, limit, p) == Some(BlockItems(node, p, d))
  {
    hide Holds, ChildFields, AttributeFields, AttributeFits, Int32, ReadItems, AttributeItems, ChildItems,
         AllAddressable, BlobsAddressable, DataAll;
    var children, attributes := node.children, node.attributes;
    var k, e := p + OwnSize(node), d + |DataAll(children, |children|)|;
    var count := Int32(|children| + |attributes|);
    var fields := ChildFields(children, |children|, k);
    HoldsSplit(file, p, count + fields, AttributeFields(attributes, |attributes|, e));
    HoldsSplit(file, p, count, fields);
    ReadInt32(file, p, |children| + |attributes|);
    ReadChildrenBack(file, limit, p + 4, children, |children|, k, d);
    ReadAttributesBack(file, limit, p + 4, ChildItems(children, |children|, k), p + 4 + |fields|,
                       attributes, |attributes|, e);
  }
}
