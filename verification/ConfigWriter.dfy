/** The writer of scripts/config_converter.py: it fills a file by seeking back and forth
    between half-written parent blocks, child blocks and the data section. */
module ConfigWriter {
  import opened Bytes
  import opened ConfigFormat

  /** A file under construction: the bytes that have been written, by offset. Seeking does
      not write, so a file may have holes. */
  type File = map<nat, byte>

  /** The file after the bytes s have been written at an offset, one after the other. */
  function Patch(file: File, at: nat, s: seq<byte>): File {
    if s == [] then file
    else Patch(file, at, s[..|s| - 1])[at + |s| - 1 := s[|s| - 1]]
  }

  lemma {:induction false} PatchAppend(file: File, at: nat, s: seq<byte>, t: seq<byte>)
    ensures Patch(Patch(file, at, s), at + |s|, t) == Patch(file, at, s + t)
    decreases |t|
  {
    if t == [] {
      assert s + t == s;
    } else {
      PatchAppend(file, at, s, t[..|t| - 1]);
      assert (s + t)[..|s + t| - 1] == s + t[..|t| - 1];
    }
  }

  lemma {:induction false} PatchCommuteOne(file: File, p: nat, s: seq<byte>, i: nat, b: byte)
    requires i < p || p + |s| <= i
    ensures Patch(file, p, s)[i := b] == Patch(file[i := b], p, s)
    decreases |s|
  {
    if s != [] {
      PatchCommuteOne(file, p, s[..|s| - 1], i, b);
    }
  }

  lemma {:induction false} PatchCommute(file: File, p: nat, s: seq<byte>, q: nat, t: seq<byte>)
    requires p + |s| <= q || q + |t| <= p
    ensures Patch(Patch(file, p, s), q, t) == Patch(Patch(file, q, t), p, s)
    decreases |t|
  {
    if t != [] {
      PatchCommute(file, p, s, q, t[..|t| - 1]);
      PatchCommuteOne(Patch(file, q, t[..|t| - 1]), p, s, q + |t| - 1, t[|t| - 1]);
    }
  }

  lemma {:induction false} PatchEmpty(s: seq<byte>)
    ensures forall i :: i in Patch(map[], 0, s) <==> 0 <= i < |s|
    ensures forall i :: 0 <= i < |s| ==> Patch(map[], 0, s)[i] == s[i]
    decreases |s|
  {
    if s != [] {
      PatchEmpty(s[..|s| - 1]);
    }
  }

  /** How far the writing of one subtree has come: the node's own block is at p, the blocks
      of its children at k, the blobs at d; each has been written up to some point. */
  datatype Progress = Progress(base: File, p: nat, own: seq<byte>, k: nat, kids: seq<byte>, d: nat, data: seq<byte>,
                               count: nat)
  {
    predicate Ordered() {
      p + |own| <= k && k + |kids| <= d
    }

    function File(): File {
      Patch(Patch(Patch(base, p, own), k, kids), d, data)
    }

    lemma Started()
      requires own == kids == data == []
      ensures File() == base
    {
    }

    lemma AppendOwn(s: seq<byte>)
      requires Ordered() && p + |own| + |s| <= k
      ensures Patch(File(), p + |own|, s) == this.(own := own + s).File()
    {
      var f := Patch(base, p, own);
      PatchCommute(Patch(f, k, kids), d, data, p + |own|, s);
      PatchCommute(f, k, kids, p + |own|, s);
      PatchAppend(base, p, own, s);
    }

    lemma AppendKids(s: seq<byte>)
      requires Ordered() && k + |kids| + |s| <= d
      ensures Patch(File(), k + |kids|, s) == this.(kids := kids + s).File()
    {
      var f := Patch(base, p, own);
      PatchCommute(Patch(f, k, kids), d, data, k + |kids|, s);
      PatchAppend(f, k, kids, s);
    }

    lemma AppendData(s: seq<byte>)
      ensures Patch(File(), d + |data|, s) == this.(data := data + s).File()
    {
      PatchAppend(Patch(Patch(base, p, own), k, kids), d, data, s);
    }

    lemma Finished()
      requires k == p + |own|
      ensures File() == Patch(Patch(base, p, own + kids), d, data)
    {
      PatchAppend(base, p, own, kids);
    }
  }

  /** Attribute.getSizeRequest and Node.getSizeRequest, as the loops that they are. */
  method GetSizeRequest(node: Node, recursive: bool) returns (size: nat)
    ensures size == if recursive then Size(node) else OwnSize(node)
    decreases node
  {
    size := 4;
    for i := 0 to |node.attributes|
      invariant size == 4 + AttributesSize(node.attributes, i)
    {
      var a := node.attributes[i];
      size := size + 1 + 4 + |a.name| + ValueSize(a.value);
    }
    for i := 0 to |node.children|
      invariant size == 4 + AttributesSize(node.attributes, |node.attributes|) + EntriesSize(node.children, i)
                        + if recursive then SizeAll(node.children, i) else 0
    {
      var child := node.children[i];
      size := size + 1 + 4 + |child.name| + 8;
      if recursive {
        var below := GetSizeRequest(child, true);
        size := size + below;
      }
    }
  }

  class BinaryWriter {
    const root: Node
    var file: File
    /** The file's own position, as tell() reports it. */
    var offset: nat
    var filePosition: nat
    var dataPosition: nat
    /** How many bytes all writes so far have put out, repeated ones included. */
    ghost var written: nat

    constructor (root: Node)
      ensures this.root == root && file == map[] && offset == 0
      ensures filePosition == 0 && dataPosition == Size(root) && written == 0
    {
      var size := GetSizeRequest(root, true);
      this.root := root;
      file := map[];
      offset := 0;
      filePosition := 0;
      dataPosition := size;
      written := 0;
    }

    ghost predicate At(g: Progress)
      reads this
    {
      && g.Ordered()
      && file == g.File()
      && offset == g.p + |g.own|
      && filePosition == g.k + |g.kids|
      && dataPosition == g.d + |g.data|
      && written == g.count + |g.own| + |g.kids| + |g.data|
    }

    /** file.write: here and nowhere else do bytes reach the file. */
    method Write(s: seq<byte>)
      modifies this`file, this`offset, this`written
      ensures file == Patch(old(file), old(offset), s)
      ensures offset == old(offset) + |s| && written == old(written) + |s|
    {
      file := Patch(file, offset, s);
      offset := offset + |s|;
      written := written + |s|;
    }

    /** struct.pack( "I", value ) raises an error when the value does not fit. */
    method WriteInt32(n: nat) returns (ok: bool)
      modifies this`file, this`offset, this`written
      ensures ok <==> n < TWO_32
      ensures ok ==> file == Patch(old(file), old(offset), Int32(n))
      ensures ok ==> offset == old(offset) + 4 && written == old(written) + 4
    {
      ok := n < TWO_32;
      if ok { Write(Int32(n)); }
    }

    /** struct.pack( "Q", value ) */
    method WriteInt64(n: int) returns (ok: bool)
      modifies this`file, this`offset, this`written
      ensures ok <==> 0 <= n < TWO_64
      ensures ok ==> file == Patch(old(file), old(offset), Int64(n))
      ensures ok ==> offset == old(offset) + 8 && written == old(written) + 8
    {
      ok := 0 <= n < TWO_64;
      if ok { Write(Int64(n)); }
    }

    /** The type byte, name length and name that start every entry of a block. */
    method WriteName(tag: byte, name: seq<byte>, ghost g: Progress) returns (ok: bool)
      requires At(g) && offset + 5 + |name| <= g.k
      modifies this`file, this`offset, this`written
      ensures ok <==> |name| < TWO_32
      ensures ok ==> At(g.(own := g.own + NameField(tag, name)))
    {
      hide Progress.File, Int32;
      Write([tag]);
      g.AppendOwn([tag]);
      ghost var g1 := g.(own := g.own + [tag]);
      ok := WriteInt32(|name|);
      if ok {
        g1.AppendOwn(Int32(|name|));
        ghost var g2 := g1.(own := g1.own + Int32(|name|));
        Write(name);
        g2.AppendOwn(name);
        assert g2.own + name == g.own + NameField(tag, name);
      }
    }

    /** One turn of the loop over the children in _writeNode. */
    method WriteChild(child: Node, ghost g: Progress) returns (ok: bool)
      requires At(g)
      requires offset + 13 + |child.name| <= g.k && filePosition + Size(child) <= g.d
      modifies this
      ensures ok <==> && |child.name| < TWO_32 && Fits(child, TWO_32)
                      && old(filePosition) < TWO_64 && Addressable(child, old(filePosition), old(dataPosition))
      ensures ok ==> At(WithChild(g, child))
      decreases child, 1
    {
      hide Patch, Blocks, Data, NameField, Int64, Fits, Addressable;
      ghost var fp, dp := filePosition, dataPosition;
      ok := WriteName(TYPE_NODE, child.name, g);
      if !ok { return; }
      ghost var g1 := g.(own := g.own + NameField(TYPE_NODE, child.name));
      ok := WriteInt64(filePosition);
      if !ok { return; }
      g1.AppendOwn(Int64(fp));
      ghost var g2 := g1.(own := g1.own + Int64(fp));
      assert g2.own == g.own + ChildField(child, fp);

      var currentPosition := offset;
      offset := filePosition;
      ok := WriteNode(child);
      offset := currentPosition;
      if ok {
        g2.AppendKids(Blocks(child, fp, dp));
        ghost var g3 := g2.(kids := g2.kids + Blocks(child, fp, dp));
        g3.AppendData(Data(child));
      }
    }

    /** A length, an offset into the data section, and the bytes over there. */
    method WriteBlob(tag: byte, blob: seq<byte>, ghost g: Progress) returns (ok: bool)
      requires At(g) && offset + 13 <= g.k
      modifies this`file, this`offset, this`written, this`dataPosition
      ensures ok <==> |blob| < TWO_32 && old(dataPosition) < TWO_64
      ensures ok ==> At(g.(own := g.own + ([tag] + Int32(|blob|) + Int64(old(dataPosition))),
                           data := g.data + blob))
    {
      hide Progress.File, Int32, Int64;
      ghost var dp := dataPosition;
      Write([tag]);
      g.AppendOwn([tag]);
      ghost var g1 := g.(own := g.own + [tag]);
      ok := WriteInt32(|blob|);
      if !ok { return; }
      g1.AppendOwn(Int32(|blob|));
      ghost var g2 := g1.(own := g1.own + Int32(|blob|));
      ok := WriteInt64(dataPosition);
      if !ok { return; }
      g2.AppendOwn(Int64(dp));
      ghost var g3 := g2.(own := g2.own + Int64(dp));
      assert g3.own == g.own + ([tag] + Int32(|blob|) + Int64(dp));
      WriteData(blob, g3);
    }

    /** Bytes at the end of the data section, and back. */
    method WriteData(blob: seq<byte>, ghost g: Progress)
      requires At(g)
      modifies this`file, this`offset, this`written, this`dataPosition
      ensures At(g.(data := g.data + blob))
    {
      var currentPosition := offset;
      offset := dataPosition;
      Write(blob);
      offset := currentPosition;
      g.AppendData(blob);
      dataPosition := dataPosition + |blob|;
    }

    method WriteNumber(n: int, ghost g: Progress) returns (ok: bool)
      requires At(g) && offset + 9 <= g.k
      modifies this`file, this`offset, this`written
      ensures ok <==> 0 <= n < TWO_64
      ensures ok ==> At(g.(own := g.own + ([NUMERIC] + Int64(n))))
    {
      Write([NUMERIC]);
      g.AppendOwn([NUMERIC]);
      ghost var g1 := g.(own := g.own + [NUMERIC]);
      ok := WriteInt64(n);
      if ok {
        g1.AppendOwn(Int64(n));
        assert g1.own + Int64(n) == g.own + ([NUMERIC] + Int64(n));
      }
    }

    /** One turn of the loop over the attributes in _writeNode. The branch for boolean
        attributes fails: it calls _wrintInt8, which no class defines. */
    method WriteAttribute(a: Attribute, ghost g: Progress) returns (ok: bool)
      requires At(g) && offset + 5 + |a.name| + ValueSize(a.value) <= g.k
      modifies this`file, this`offset, this`written, this`dataPosition
      ensures ok <==> AttributeFits(a, TWO_32) && (HasBlob(a.value) ==> old(dataPosition) < TWO_64)
      ensures ok ==> At(WithAttribute(g, a))
    {
      hide Progress.File, NameField, Int32, Int64;
      ghost var dp := dataPosition;
      ok := WriteName(TYPE_ATTRIBUTE, a.name, g);
      if !ok { return; }
      ghost var name := NameField(TYPE_ATTRIBUTE, a.name);
      ghost var g1 := g.(own := g.own + name);
      assert g1.own + ValueField(a.value, dp) == g.own + AttributeField(a, dp);
      match a.value {
        case Numeric(n) =>
          ok := WriteNumber(n, g1);
          assert g1.data + [] == g1.data;
        case Ascii(text) =>
          ok := WriteBlob(ASCII, text, g1);
        case Bool(_) =>
          ok := false;
        case Binary(data) =>
          ok := WriteBlob(BINARY, data, g1);
      }
    }

    method WriteChildren(nodes: seq<Node>, ghost g: Progress) returns (ok: bool)
      requires At(g) && g.kids == [] && g.data == []
      requires offset + EntriesSize(nodes, |nodes|) <= g.k && filePosition + SizeAll(nodes, |nodes|) <= g.d
      modifies this
      ensures ok <==> && (forall i :: 0 <= i < |nodes| ==> |nodes[i].name| < TWO_32 && Fits(nodes[i], TWO_32))
                      && AllAddressable(nodes, |nodes|, g.k, g.d)
      ensures ok ==> At(AfterChildren(g, nodes, |nodes|))
      decreases nodes, 0
    {
      hide Patch, ChildField, Blocks, BlocksAll, ChildFields, Data, DataAll, Size, SizeAll, WithChild,
           AllAddressable, Addressable, Fits;
      NothingAddressable(nodes, [], g.k, g.d);
      ok := true;
      AfterNothing(g, nodes, []);
      ghost var h := g;
      var i := 0;
      while i < |nodes|
        invariant 0 <= i <= |nodes| && ok
        invariant h == AfterChildren(g, nodes, i)
        invariant At(h)
        invariant forall j :: 0 <= j < i ==> |nodes[j].name| < TWO_32 && Fits(nodes[j], TWO_32)
        invariant AllAddressable(nodes, i, g.k, g.d)
      {
        AfterChild(g, nodes, i);
        ChildHasRoom(g, nodes, i);
        MoreAddressable(nodes, i, g.k, g.d);
        ok := WriteChild(nodes[i], h);
        if !ok { return; }
        h := WithChild(h, nodes[i]);
        i := i + 1;
      }
    }

    method WriteAttributes(attrs: seq<Attribute>, ghost g: Progress) returns (ok: bool)
      requires At(g) && offset + AttributesSize(attrs, |attrs|) <= g.k
      modifies this`file, this`offset, this`written, this`dataPosition
      ensures ok <==> && (forall i :: 0 <= i < |attrs| ==> AttributeFits(attrs[i], TWO_32))
                      && BlobsAddressable(attrs, |attrs|, g.d + |g.data|)
      ensures ok ==> At(AfterAttributes(g, attrs, |attrs|))
    {
      hide Patch, AttributeFields, AttributeField, AttributesData, WithAttribute, AttributeFits, BlobsAddressable;
      NothingAddressable([], attrs, 0, g.d + |g.data|);
      ok := true;
      AfterNothing(g, [], attrs);
      ghost var h := g;
      var i := 0;
      while i < |attrs|
        invariant 0 <= i <= |attrs| && ok
        invariant h == AfterAttributes(g, attrs, i)
        invariant At(h)
        invariant forall j :: 0 <= j < i ==> AttributeFits(attrs[j], TWO_32)
        invariant BlobsAddressable(attrs, i, g.d + |g.data|)
      {
        AfterAttribute(g, attrs, i);
        AttributeHasRoom(g, attrs, i);
        MoreBlobsAddressable(attrs, i, g.d + |g.data|);
        ok := WriteAttribute(attrs[i], h);
        if !ok { return; }
        h := WithAttribute(h, attrs[i]);
        i := i + 1;
      }
    }

    /** _writeNode */
    method WriteNode(node: Node) returns (ok: bool)
      requires offset == filePosition && filePosition + Size(node) <= dataPosition
      modifies this
      ensures ok <==> Fits(node, TWO_32) && Addressable(node, old(filePosition), old(dataPosition))
      ensures ok ==>
        && file == Patch(Patch(old(file), old(filePosition), Blocks(node, old(filePosition), old(dataPosition))),
                         old(dataPosition), Data(node))
        && filePosition == old(filePosition) + Size(node)
        && dataPosition == old(dataPosition) + |Data(node)|
        && written == old(written) + Size(node) + |Data(node)|
      decreases node, 0
    {
      hide Progress.File, Patch, ChildFields, AttributeFields, BlocksAll, DataAll, AttributesData, Int32,
           AllAddressable, BlobsAddressable, AttributeFits;
      ghost var p, d := filePosition, dataPosition;
      var size := GetSizeRequest(node, false);
      ghost var g := Progress(file, p, [], p + size, [], d, [], written);
      g.Started();
      filePosition := filePosition + size;
      ok := WriteInt32(|node.children| + |node.attributes|);
      if !ok { return; }
      g.AppendOwn(Int32(|node.children| + |node.attributes|));
      g := g.(own := [] + Int32(|node.children| + |node.attributes|));
      ok := WriteChildren(node.children, g);
      if !ok { return; }
      g := AfterChildren(g, node.children, |node.children|);
      ok := WriteAttributes(node.attributes, g);
      if !ok { return; }
      g := AfterAttributes(g, node.attributes, |node.attributes|);
      assert g.own == Block(node, p, d);
      g.Finished();
    }

    /** writeFile, on a writer just created. It completes exactly when every field and every
        offset fits, and then the file has no hole, is the image of the tree, and the number of
        bytes ever written is the length of the file: no byte was written twice. */
    method WriteFile() returns (ok: bool)
      requires file == map[] && offset == 0 && filePosition == 0 && dataPosition == Size(root) && written == 0
      modifies this
      ensures ok <==> Fits(root, TWO_32) && Addressable(root, 0, Size(root))
      ensures ok ==>
        && (forall i :: i in file <==> 0 <= i < |Image(root)|)
        && (forall i :: 0 <= i < |Image(root)| ==> file[i] == Image(root)[i])
        && written == |Image(root)|
    {
      hide Patch, Blocks, Data, Size, Fits, Addressable;
      ok := WriteNode(root);
      if ok {
        PatchAppend(map[], 0, Blocks(root, 0, Size(root)), Data(root));
        PatchEmpty(Image(root));
      }
    }
  }

  /** The progress after the entries, blocks and blobs of the first i children. */
  ghost function AfterChildren(g: Progress, nodes: seq<Node>, i: nat): Progress
    requires i <= |nodes|
  {
    g.(own := g.own + ChildFields(nodes, i, g.k), kids := BlocksAll(nodes, i, g.k, g.d), data := DataAll(nodes, i))
  }

  /** The progress after the entries and blobs of the first i attributes. */
  ghost function AfterAttributes(g: Progress, attrs: seq<Attribute>, i: nat): Progress
    requires i <= |attrs|
  {
    g.(own := g.own + AttributeFields(attrs, i, g.d + |g.data|), data := g.data + AttributesData(attrs, i))
  }

  ghost function WithChild(g: Progress, child: Node): Progress {
    var p, d := g.k + |g.kids|, g.d + |g.data|;
    g.(own := g.own + ChildField(child, p), kids := g.kids + Blocks(child, p, d), data := g.data + Data(child))
  }

  ghost function WithAttribute(g: Progress, a: Attribute): Progress {
    g.(own := g.own + AttributeField(a, g.d + |g.data|), data := g.data + Blob(a.value))
  }

  lemma NothingAddressable(nodes: seq<Node>, attrs: seq<Attribute>, p: nat, d: nat)
    ensures AllAddressable(nodes, 0, p, d) && BlobsAddressable(attrs, 0, d)
  {
  }

  /** Whether one more child can be addressed; if not, the whole list cannot. */
  lemma MoreAddressable(nodes: seq<Node>, i: nat, p: nat, d: nat)
    requires i < |nodes| && AllAddressable(nodes, i, p, d)
    ensures var here, data := p + SizeAll(nodes, i), d + |DataAll(nodes, i)|;
            AllAddressable(nodes, i + 1, p, d) <==> here < TWO_64 && Addressable(nodes[i], here, data)
    ensures AllAddressable(nodes, |nodes|, p, d) ==> AllAddressable(nodes, i + 1, p, d)
  {
    hide Addressable, SizeAll, DataAll;
    if AllAddressable(nodes, |nodes|, p, d) {
      AllAddressablePrefix(nodes, i + 1, |nodes|, p, d);
    }
  }

  lemma MoreBlobsAddressable(attrs: seq<Attribute>, i: nat, d: nat)
    requires i < |attrs| && BlobsAddressable(attrs, i, d)
    ensures BlobsAddressable(attrs, i + 1, d) <==>
            (HasBlob(attrs[i].value) ==> d + |AttributesData(attrs, i)| < TWO_64)
    ensures BlobsAddressable(attrs, |attrs|, d) ==> BlobsAddressable(attrs, i + 1, d)
  {
    hide AttributesData;
    if BlobsAddressable(attrs, |attrs|, d) {
      BlobsAddressablePrefix(attrs, i + 1, |attrs|, d);
    }
  }

  lemma AfterNothing(g: Progress, nodes: seq<Node>, attrs: seq<Attribute>)
    ensures AfterAttributes(g, attrs, 0) == g
    ensures g.kids == [] && g.data == [] ==> AfterChildren(g, nodes, 0) == g
  {
    assert g.own + [] == g.own && g.data + [] == g.data;
  }

  lemma Assoc(a: seq<byte>, b: seq<byte>, c: seq<byte>)
    ensures a + b + c == a + (b + c)
  {
  }

  lemma ChildStep(nodes: seq<Node>, i: nat, p: nat, d: nat)
    requires i < |nodes|
    ensures ChildFields(nodes, i + 1, p) == ChildFields(nodes, i, p) + ChildField(nodes[i], p + SizeAll(nodes, i))
    ensures BlocksAll(nodes, i + 1, p, d)
         == BlocksAll(nodes, i, p, d) + Blocks(nodes[i], p + SizeAll(nodes, i), d + |DataAll(nodes, i)|)
    ensures DataAll(nodes, i + 1) == DataAll(nodes, i) + Data(nodes[i])
  {
    hide ChildField, Blocks, Size, Data;
  }

  lemma AfterChild(g: Progress, nodes: seq<Node>, i: nat)
    requires i < |nodes|
    ensures AfterChildren(g, nodes, i + 1) == WithChild(AfterChildren(g, nodes, i), nodes[i])
  {
    hide ChildField, ChildFields, Blocks, BlocksAll, Size, SizeAll, Data, DataAll;
    ChildStep(nodes, i, g.k, g.d);
    Assoc(g.own, ChildFields(nodes, i, g.k), ChildField(nodes[i], g.k + SizeAll(nodes, i)));
  }

  lemma ChildHasRoom(g: Progress, nodes: seq<Node>, i: nat)
    requires i < |nodes|
    ensures var h := AfterChildren(g, nodes, i);
            && |h.own| + 13 + |nodes[i].name| <= |g.own| + EntriesSize(nodes, |nodes|)
            && |h.kids| + Size(nodes[i]) <= SizeAll(nodes, |nodes|)
            && |h.data| + |Data(nodes[i])| <= |DataAll(nodes, |nodes|)|
  {
    PrefixSizes(nodes, i, |nodes|);
  }

  lemma AttributeStep(attrs: seq<Attribute>, i: nat, d: nat)
    requires i < |attrs|
    ensures AttributeFields(attrs, i + 1, d)
         == AttributeFields(attrs, i, d) + AttributeField(attrs[i], d + |AttributesData(attrs, i)|)
    ensures AttributesData(attrs, i + 1) == AttributesData(attrs, i) + Blob(attrs[i].value)
  {
    hide AttributeField, Blob;
  }

  lemma AfterAttribute(g: Progress, attrs: seq<Attribute>, i: nat)
    requires i < |attrs|
    ensures AfterAttributes(g, attrs, i + 1) == WithAttribute(AfterAttributes(g, attrs, i), attrs[i])
  {
    hide AttributeField, AttributeFields, AttributesData, Blob;
    var d := g.d + |g.data|;
    AttributeStep(attrs, i, d);
    Assoc(g.own, AttributeFields(attrs, i, d), AttributeField(attrs[i], d + |AttributesData(attrs, i)|));
    Assoc(g.data, AttributesData(attrs, i), Blob(attrs[i].value));
  }

  lemma AttributeHasRoom(g: Progress, attrs: seq<Attribute>, i: nat)
    requires i < |attrs|
    ensures var h := AfterAttributes(g, attrs, i);
            && |h.own| + 5 + |attrs[i].name| + ValueSize(attrs[i].value) <= |g.own| + AttributesSize(attrs, |attrs|)
            && |h.data| + |Blob(attrs[i].value)| <= |g.data| + |AttributesData(attrs, |attrs|)|
  {
    PrefixAttributeSizes(attrs, i, |attrs|);
  }

  lemma {:induction false} PrefixSizes(nodes: seq<Node>, i: nat, n: nat)
    requires i < n <= |nodes|
    ensures EntriesSize(nodes, i) + 13 + |nodes[i].name| <= EntriesSize(nodes, n)
    ensures SizeAll(nodes, i) + Size(nodes[i]) <= SizeAll(nodes, n)
    ensures |DataAll(nodes, i)| + |Data(nodes[i])| <= |DataAll(nodes, n)|
    decreases n
  {
    if i + 1 < n {
      PrefixSizes(nodes, i, n - 1);
    }
  }

  lemma {:induction false} PrefixAttributeSizes(attrs: seq<Attribute>, i: nat, n: nat)
    requires i < n <= |attrs|
    ensures AttributesSize(attrs, i) + 5 + |attrs[i].name| + ValueSize(attrs[i].value) <= AttributesSize(attrs, n)
    ensures |AttributesData(attrs, i)| + |Blob(attrs[i].value)| <= |AttributesData(attrs, n)|
    decreases n
  {
    if i + 1 < n {
      PrefixAttributeSizes(attrs, i, n - 1);
    }
  }
}
