/** The mounted archive: a list of nodes, opened by path and read by offset. */
module FileSystem {
  import opened Archive
  import opened Bits
  import opened Common

  const FILE: nat := 1
  const DIRECTORY: nat := 2
  const SLASH: UInt8 := 0x2F

  /** FSVNode; `data` is the offset of the file's bytes in the mounted archive. */
  class Node {
    var name: seq<UInt8>
    var flags: nat
    var inode: nat
    var dataLength: nat
    var data: nat
    var child: Node?
    var next: Node?

    constructor (name: seq<UInt8>, flags: nat)
      ensures this.name == name && this.flags == flags && inode == dataLength == data == 0 && child == null && next == null
    {
      this.name, this.flags := name, flags;
      inode, dataLength, data := 0, 0, 0;
      child, next := null, null;
    }
  }

  ghost predicate Represents(n: Node, archive: seq<UInt8>, e: Entry)
    reads n`name, n`flags, n`inode, n`dataLength, n`data
  {
    && n.name == e.name && n.inode == e.inode && n.flags == (if IsDirectory(e.mode) then DIRECTORY else FILE)
    && n.dataLength == |e.data| && n.data + n.dataLength <= |archive|
    && archive[n.data..n.data + n.dataLength] == e.data
  }

  /** The nodes hang off `root` as a list, in this order. */
  ghost predicate Linked(root: Node, nodes: seq<Node>)
    reads root`child, nodes`next
  {
    && root !in nodes
    && (forall i, j :: 0 <= i < j < |nodes| ==> nodes[i] != nodes[j])
    && root.child == (if nodes == [] then null else nodes[0])
    && forall i :: 0 <= i < |nodes| ==> nodes[i].next == if i + 1 < |nodes| then nodes[i + 1] else null
  }

  ghost predicate Lists(root: Node, nodes: seq<Node>, archive: seq<UInt8>, es: seq<Entry>)
    reads root, nodes
  {
    && Linked(root, nodes) && |nodes| == |es|
    && forall i :: 0 <= i < |nodes| ==> Represents(nodes[i], archive, es[i])
  }

  /** The node of one record. */
  method NewNode(archive: seq<UInt8>, o: nat) returns (node: Node)
    requires o + HEADER_LENGTH <= |archive| && o + DataOffset(archive, o) + Field(archive, o + FILE_LENGTH) <= |archive|
    ensures fresh(node) && Represents(node, archive, EntryAt(archive, o)) && node.next == null
  {
    hide CString, HexValue;
    var nameSize := HexadecimalToInt(archive[o + NAME_LENGTH..o + NAME_LENGTH + 8]);
    var fileSize := HexadecimalToInt(archive[o + FILE_LENGTH..o + FILE_LENGTH + 8]);
    node := new Node(Clip(CString(archive, o + HEADER_LENGTH), NAME_LIMIT), FILE);
    node.dataLength := fileSize;
    node.inode := HexadecimalToInt(archive[o + INODE..o + INODE + 8]);
    node.data := o + Align4(HEADER_LENGTH + nameSize);
    var mode := HexadecimalToInt(archive[o + MODE..o + MODE + 8]);
    DirectoryMask(mode);
    if And(mode, 0xF000) == 0x4000 {
      node.flags := DIRECTORY;
    }
  }

  lemma LinkedEmpty(root: Node)
    requires root.child == null
    ensures Linked(root, [])
  {
  }

  /** The new node goes to the end of the list. */
  method Append(root: Node, tail: Node?, node: Node, ghost nodes: seq<Node>)
    requires Linked(root, nodes) && node !in nodes && node != root && node.next == null
    requires tail == if nodes == [] then null else nodes[|nodes| - 1]
    modifies root`child, (set n | n in nodes)`next
    ensures Linked(root, nodes + [node])
  {
    if root.child == null {
      root.child := node;
    } else if tail != null {
      tail.next := node;
    }
  }

  lemma RecordsAdvance(archive: seq<UInt8>, o: nat)
    requires o + HEADER_LENGTH <= |archive|
    ensures RecordLength(archive, o) >= HEADER_LENGTH
  {
  }

  /** FSCPIOMount; null is the panic over a bad magic. */
  method Mount(archive: seq<UInt8>) returns (root: Node?, ghost nodes: seq<Node>)
    requires Inside(archive, 0)
    ensures root == null <==> Parse(archive, 0).None?
    ensures root != null ==> fresh(root) && root.flags == DIRECTORY && Lists(root, nodes, archive, Parse(archive, 0).value)
  {
    hide CString, EntryAt, Field, DataOffset, RecordLength, Represents;
    hide Inside, Parse, Follow, Linked;
    root := new Node([SLASH], DIRECTORY);
    assert Linked(root, []) by { LinkedEmpty(root); }
    nodes := [];
    var tail: Node? := null;
    var o := 0;
    FollowStart(Parse(archive, 0));
    ghost var es: seq<Entry> := [];
    while o < |archive|
      invariant Inside(archive, o) && fresh(root) && root.flags == DIRECTORY
      invariant forall n :: n in nodes ==> fresh(n)
      invariant Lists(root, nodes, archive, es)
      invariant tail == if nodes == [] then null else nodes[|nodes| - 1]
      invariant Parse(archive, 0) == Follow(es, Parse(archive, o))
      decreases |archive| - o
    {
      WalkAt(archive, o);
      if archive[o..o + 6] != MAGIC {
        return null, [];
      }
      if CString(archive, o + HEADER_LENGTH) == TRAILER {
        break;
      }
      var node := NewNode(archive, o);
      Append(root, tail, node, nodes);
      tail := node;
      FollowStep(archive, o, es);
      nodes := nodes + [node];
      es := es + [EntryAt(archive, o)];
      RecordsAdvance(archive, o);
      o := o + RecordLength(archive, o);
    }
    FollowEnd(archive, o, es);
  }

  /** The entries read so far, and the rest of the walk. */
  ghost function Follow(es: seq<Entry>, rest: Option<seq<Entry>>): Option<seq<Entry>> {
    match rest
    case None => None
    case Some(more) => Some(es + more)
  }

  lemma FollowStep(archive: seq<UInt8>, o: nat, es: seq<Entry>)
    requires o < |archive| && Inside(archive, o) && archive[o..o + 6] == MAGIC && CString(archive, o + HEADER_LENGTH) != TRAILER
    ensures Follow(es, Parse(archive, o)) == Follow(es + [EntryAt(archive, o)], Parse(archive, o + RecordLength(archive, o)))
  {
    hide CString, EntryAt, Field, DataOffset, RecordLength;
    var rest := Parse(archive, o + RecordLength(archive, o));
    if rest.Some? {
      assert es + ([EntryAt(archive, o)] + rest.value) == (es + [EntryAt(archive, o)]) + rest.value;
    }
  }

  /** What the walk may rely on at a header. */
  lemma WalkAt(archive: seq<UInt8>, o: nat)
    requires Inside(archive, o) && o < |archive|
    ensures o + HEADER_LENGTH <= |archive|
    ensures archive[o..o + 6] != MAGIC ==> forall es :: Follow(es, Parse(archive, o)) == None
    ensures archive[o..o + 6] == MAGIC && CString(archive, o + HEADER_LENGTH) != TRAILER ==>
      && o + DataOffset(archive, o) + Field(archive, o + FILE_LENGTH) <= |archive|
      && Inside(archive, o + RecordLength(archive, o))
  {
    hide CString, Field, DataOffset, RecordLength;
  }

  lemma FollowStart(rest: Option<seq<Entry>>)
    ensures Follow([], rest) == rest
  {
    if rest.Some? {
      assert [] + rest.value == rest.value;
    }
  }

  lemma FollowEnd(archive: seq<UInt8>, o: nat, es: seq<Entry>)
    requires Inside(archive, o)
    requires o >= |archive| || (archive[o..o + 6] == MAGIC && CString(archive, o + HEADER_LENGTH) == TRAILER)
    ensures Follow(es, Parse(archive, o)) == Some(es)
  {
    assert es + [] == es;
  }

  // ---------- opening and reading ----------

  /** The index of the first entry of that name; the number of entries if there is none. */
  function FirstNamed(es: seq<Entry>, name: seq<UInt8>): (i: nat)
    ensures i <= |es| && (i < |es| ==> es[i].name == name) && forall j :: 0 <= j < i ==> es[j].name != name
  {
    if es == [] || es[0].name == name then 0 else 1 + FirstNamed(es[1..], name)
  }

  lemma FirstNamedIs(es: seq<Entry>, name: seq<UInt8>, i: nat)
    requires i <= |es| && (i < |es| ==> es[i].name == name) && forall j :: 0 <= j < i ==> es[j].name != name
    ensures FirstNamed(es, name) == i
  {
  }

  class FileSystem {
    var root: Node?
    ghost var nodes: seq<Node>
    ghost var archive: seq<UInt8>
    ghost var entries: seq<Entry>

    ghost predicate Valid()
      reads this, root, nodes
    {
      root != null ==> Lists(root, nodes, archive, entries)
    }

    constructor ()
      ensures Valid() && root == null
    {
      root := null;
      nodes, archive, entries := [], [], [];
    }

    /** FSVirtualFileSystemInitialize, with what has been mounted. */
    method Initialize(root: Node, ghost nodes: seq<Node>, ghost archive: seq<UInt8>, ghost entries: seq<Entry>)
      requires Lists(root, nodes, archive, entries)
      modifies this
      ensures Valid() && this.root == root && this.nodes == nodes && this.archive == archive && this.entries == entries
    {
      this.root := root;
      this.nodes, this.archive, this.entries := nodes, archive, entries;
    }

    /** The node of the first entry of that name, or null if there is none. */
    ghost predicate IsFirstNamed(node: Node?, name: seq<UInt8>)
      requires root != null && Valid()
      reads this, root, nodes
    {
      var i := FirstNamed(entries, name);
      if i < |entries| then node == nodes[i] && Represents(nodes[i], archive, entries[i]) else node == null
    }

    /** FSVirtualFileSystemOpenPath: "/" is the root, "/name" and "name" the first entry of that name. */
    method OpenPath(path: seq<UInt8>) returns (node: Node?)
      requires Valid()
      ensures root == null ==> node == null
      ensures root != null && path == [SLASH] ==> node == root
      ensures root != null ==> forall name :: name != [] && path == [SLASH] + name ==> IsFirstNamed(node, name)
      ensures root != null && (path == [] || path[0] != SLASH) ==> IsFirstNamed(node, path)
    {
      if root == null {
        return null;
      }
      if path == [SLASH] {
        return root;
      }
      var name := path;
      if path != [] && path[0] == SLASH {
        name := path[1..];
        assert forall x :: path == [SLASH] + x ==> x == path[1..];
      }
      node := root.child;
      ghost var i := 0;
      while node != null
        invariant i <= |nodes| && node == if i < |nodes| then nodes[i] else null
        invariant forall j :: 0 <= j < i ==> entries[j].name != name
        decreases |nodes| - i
      {
        if node.name == name {
          FirstNamedIs(entries, name, i);
          return;
        }
        node := node.next;
        i := i + 1;
      }
      FirstNamedIs(entries, name, i);
    }
  }

  /** What FSCPIORead returns: the sum of offset and size is a 64-bit one. */
  function ReadCount(length: nat, offset: nat, size: nat): nat {
    if offset > length then 0
    else if (offset + size) % WORD_LIMIT > length then length - offset
    else size
  }

  function ClippedCount(length: nat, offset: nat, size: nat): nat {
    if offset > length then 0 else if size > length - offset then length - offset else size
  }

  /** A read is clipped to the file exactly when it starts behind the file or its end does not wrap. */
  lemma ReadIsClipped(length: nat, offset: nat, size: nat)
    requires length < WORD_LIMIT && offset < WORD_LIMIT && size < WORD_LIMIT
    ensures ReadCount(length, offset, size) == ClippedCount(length, offset, size) <==> offset > length || offset + size < WORD_LIMIT
  {
    if offset + size < WORD_LIMIT {
      assert (offset + size) % WORD_LIMIT == offset + size;
    } else {
      assert (offset + size) % WORD_LIMIT == offset + size - WORD_LIMIT;
    }
  }

  /** The whole address space asked for from offset 1 of a file of ten bytes: not clipped at all. */
  lemma WrappedReadIsNotClipped()
    ensures ReadCount(10, 1, WORD_LIMIT - 1) == WORD_LIMIT - 1 && ClippedCount(10, 1, WORD_LIMIT - 1) == 9
  {
  }

  /** FSCPIORead: the clipped slice of the file's bytes goes to the start of the buffer. */
  method Read(node: Node, archive: seq<UInt8>, offset: nat, size: nat, buffer: array<UInt8>, ghost e: Entry) returns (count: nat)
    requires Represents(node, archive, e) && |archive| < WORD_LIMIT && offset < WORD_LIMIT && size < WORD_LIMIT
    requires offset > node.dataLength || offset + size < WORD_LIMIT
    requires ClippedCount(|e.data|, offset, size) <= buffer.Length
    modifies buffer
    ensures count == ReadCount(|e.data|, offset, size) == ClippedCount(|e.data|, offset, size)
    ensures buffer[..count] == if offset > |e.data| then [] else e.data[offset..offset + count]
    ensures buffer[count..] == old(buffer[count..])
  {
    ReadIsClipped(node.dataLength, offset, size);
    if offset > node.dataLength {
      return 0;
    }
    count := size;
    if (offset + size) % WORD_LIMIT > node.dataLength {
      count := node.dataLength - offset;
    }
    var start := node.data + offset;
    for i := 0 to count
      invariant forall k :: 0 <= k < i ==> buffer[k] == archive[start + k]
      invariant buffer[count..] == old(buffer[count..])
    {
      buffer[i] := archive[start + i];
    }
    assert buffer[..count] == archive[start..start + count] == e.data[offset..offset + count];
  }
}
