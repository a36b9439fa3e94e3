/** Inheriting owner and permissions along the path of a new object. */
module Permissions {
  import opened Text

  /** A node is named by the components below the root; its attributes are those of stat. */
  type Path = seq<string>

  datatype Attr = Attr(uid: nat, gid: nat, mode: bv32)

  const TYPE_MASK: bv32 := 0xF000      // 0170000
  const DIRECTORY: bv32 := 0x4000      // 0040000
  const LOW_BITS: bv32 := 0x1FF        // 0777
  const HIGH_BITS: bv32 := 0x3FE00     // 0777000
  const FRESH_DIRECTORY: bv32 := 0x1FF // 0777
  const FRESH_FILE: bv32 := 0x1B6      // 0666

  predicate IsDir(a: Attr) {
    a.mode & TYPE_MASK == DIRECTORY
  }

  /** A node owned by root with the default bits counts as not initialised. */
  predicate IsInitialized(a: Attr) {
    !(a.uid == 0 && a.gid == 0 && a.mode & LOW_BITS == if IsDir(a) then FRESH_DIRECTORY else FRESH_FILE)
  }

  type Attrs = map<Path, Attr>

  /** The node k components below the parent. */
  function Node(parent: Path, comps: seq<string>, k: nat): Path
    requires k <= |comps|
  {
    parent + comps[..k]
  }

  /** Every node along the path exists, and all but the last are directories. */
  ghost predicate Walkable(attrs: Attrs, parent: Path, comps: seq<string>) {
    && parent in attrs
    && (forall k :: 0 < k <= |comps| ==> Node(parent, comps, k) in attrs)
    && (forall k :: 0 < k < |comps| ==> IsDir(attrs[Node(parent, comps, k)]))
  }

  /** What a node passes on: owner, group and the low nine mode bits. */
  datatype Grant = Grant(uid: nat, gid: nat, low: bv32)

  function GrantOf(a: Attr): Grant {
    Grant(a.uid, a.gid, a.mode & LOW_BITS)
  }

  /** How many components below the parent the nearest initialised node at or above the k-th is;
      0 when there is none but the parent itself. */
  ghost function Nearest(attrs: Attrs, parent: Path, comps: seq<string>, k: nat): (j: nat)
    requires Walkable(attrs, parent, comps) && k <= |comps|
    ensures j <= k
    ensures 0 < j ==> IsInitialized(attrs[Node(parent, comps, j)])
    ensures forall i :: j < i <= k ==> !IsInitialized(attrs[Node(parent, comps, i)])
  {
    if k == 0 || IsInitialized(attrs[Node(parent, comps, k)]) then k else Nearest(attrs, parent, comps, k - 1)
  }

  /** What the k-th node below the parent should end up with. */
  ghost function Inherited(attrs: Attrs, parent: Path, comps: seq<string>, k: nat): Grant
    requires Walkable(attrs, parent, comps) && k <= |comps|
  {
    var j := Nearest(attrs, parent, comps, k);
    if j == 0 then GrantOf(attrs[parent]) else GrantOf(attrs[Node(parent, comps, j)])
  }

  /** The node `now` came from `before` by inheriting this grant. */
  ghost predicate Took(before: Attr, now: Attr, grant: Grant) {
    && now.uid == grant.uid && now.gid == grant.gid
    && if IsDir(before)
       then now.mode & LOW_BITS == grant.low && now.mode & HIGH_BITS == before.mode & HIGH_BITS
       else now.mode == before.mode
  }

  /** Initialised nodes stay as they are, others take what is inherited. */
  ghost predicate Settled(before: Attr, now: Attr, grant: Grant) {
    if IsInitialized(before) then now == before else Took(before, now, grant)
  }

  /** The outcome of a walk: nodes off the path and initialised nodes are unchanged; every other
      node on the path has what its nearest initialised ancestor, or else the parent, passes on. */
  ghost predicate InheritedAlong(before: Attrs, now: Attrs, parent: Path, comps: seq<string>)
    requires Walkable(before, parent, comps)
  {
    && now.Keys == before.Keys
    && (forall node :: node in before && OffPath(node, parent, comps) ==> now[node] == before[node])
    && (forall k :: 0 < k <= |comps| ==>
          Settled(before[Node(parent, comps, k)], now[Node(parent, comps, k)], Inherited(before, parent, comps, k)))
  }

  ghost predicate OffPath(node: Path, parent: Path, comps: seq<string>) {
    forall k :: 0 < k <= |comps| ==> node != Node(parent, comps, k)
  }

  lemma ModeBits(own: bv32, parent: bv32)
    ensures ((own & HIGH_BITS) | (parent & LOW_BITS)) & LOW_BITS == parent & LOW_BITS
    ensures ((own & HIGH_BITS) | (parent & LOW_BITS)) & HIGH_BITS == own & HIGH_BITS
    ensures ((own & HIGH_BITS) | (parent & LOW_BITS)) & TYPE_MASK == own & TYPE_MASK
    ensures ((own & HIGH_BITS) | (parent & LOW_BITS)) & 0xFFFF_FE00 == own & HIGH_BITS
  {
  }

  /** What happens to the first node of a walk. */
  ghost predicate FirstStep(before: Attrs, now: Attrs, parent: Path, handle: Path)
    requires parent in before && handle in before
  {
    && now.Keys == before.Keys
    && (forall n :: n in before && n != handle ==> now[n] == before[n])
    && now[handle].mode & TYPE_MASK == before[handle].mode & TYPE_MASK
    && Settled(before[handle], now[handle], GrantOf(before[parent]))
  }

  /** What a node becomes below this parent. */
  function Inheriting(own: Attr, up: Attr): Attr {
    if IsInitialized(own) then own
    else Attr(up.uid, up.gid, if IsDir(own) then (own.mode & HIGH_BITS) | (up.mode & LOW_BITS) else own.mode)
  }

  lemma InheritingSettles(own: Attr, up: Attr)
    ensures Inheriting(own, up).mode & TYPE_MASK == own.mode & TYPE_MASK
    ensures Settled(own, Inheriting(own, up), GrantOf(up))
  {
    ModeBits(own.mode, up.mode);
  }

  /** The same in numbers: only root's nodes with mode 0777 for directories and 0666 for others take the
      owner, and directories the last nine mode bits as well. */
  lemma InheritingMeaning(own: Attr, up: Attr)
    ensures var now, dir := Inheriting(own, up), own.mode & 0xF000 == 0x4000;
            if own.uid == 0 && own.gid == 0 && own.mode & 0x1FF == (if dir then 0x1FF else 0x1B6) then
              now.uid == up.uid && now.gid == up.gid
              && if dir then now.mode & 0x1FF == up.mode & 0x1FF && now.mode & 0xFFFF_FE00 == own.mode & 0x3FE00
                 else now.mode == own.mode
            else
              now == own
  {
    ModeBits(own.mode, up.mode);
  }

  /** strings.Index for a slash, the length when there is none. */
  method FirstComponent(path: string) returns (index: nat)
    ensures index <= |path| && (index < |path| ==> path[index] == '/')
    ensures Split(path, '/') == if index < |path| then [path[..index]] + Split(path[index + 1..], '/') else [path]
  {
    index := 0;
    while index < |path| && path[index] != '/'
      invariant index <= |path| && '/' !in path[..index]
    {
      index := index + 1;
    }
    if index < |path| {
      SplitHead(path[..index], path[index + 1..], '/');
      assert path == path[..index] + ['/'] + path[index + 1..];
    } else {
      assert path[..index] == path;
      SplitLast(path, '/');
    }
  }

  class FileSystem {
    var attrs: Attrs

    /** Gives a node that is not initialised its parent's owner and, if it is a directory, its
        parent's low mode bits. */
    method InheritNode(parent: Path, handle: Path)
      requires parent in attrs && handle in attrs
      modifies this
      ensures FirstStep(old(attrs), attrs, parent, handle)
      ensures attrs == old(attrs)[handle := Inheriting(old(attrs)[handle], old(attrs)[parent])]
    {
      var parentAttr, attr := attrs[parent], attrs[handle];
      if !IsInitialized(attr) {
        var mode := if IsDir(attr) then (attr.mode & HIGH_BITS) | (parentAttr.mode & LOW_BITS) else attr.mode;
        attrs := attrs[handle := Attr(parentAttr.uid, parentAttr.gid, mode)];
      }
      assert attrs == old(attrs)[handle := Inheriting(attr, parentAttr)];
      InheritingSettles(attr, parentAttr);
    }

    /** setupPermission: handles the first component, then goes on below it. */
    method SetupPermission(parent: Path, path: string)
      requires Walkable(attrs, parent, Split(path, '/'))
      modifies this
      ensures InheritedAlong(old(attrs), attrs, parent, Split(path, '/'))
      decreases |path|
    {
      ghost var comps := Split(path, '/');
      var index := FirstComponent(path);
      var handle := parent + [path[..index]];
      assert path[..|path|] == path;
      assert handle == Node(parent, comps, 1);
      InheritNode(parent, handle);
      if index == |path| {
        OnlyNode(old(attrs), attrs, parent, comps);
      } else {
        ghost var between := attrs;
        assert comps[1..] == Split(path[index + 1..], '/');
        StillWalkable(old(attrs), between, parent, comps);
        SetupPermission(handle, path[index + 1..]);
        GoesOn(old(attrs), between, attrs, parent, comps);
      }
    }
  }

  /** What a walk leaves at a fresh node, when every node between it and the j-th is fresh too and the j-th
      is not, or is the parent. */
  lemma WalkGives(before: Attrs, now: Attrs, parent: Path, comps: seq<string>, j: nat, k: nat)
    requires Walkable(before, parent, comps) && InheritedAlong(before, now, parent, comps)
    requires j < k <= |comps| && (j > 0 ==> IsInitialized(before[Node(parent, comps, j)]))
    requires forall i :: j < i <= k ==> !IsInitialized(before[Node(parent, comps, i)])
    ensures var up := if j == 0 then before[parent] else before[Node(parent, comps, j)];
            var own, node := before[Node(parent, comps, k)], now[Node(parent, comps, k)];
            node.uid == up.uid && node.gid == up.gid
            && if own.mode & 0xF000 == 0x4000
               then node.mode & 0x1FF == up.mode & 0x1FF && node.mode & 0x3FE00 == own.mode & 0x3FE00
               else node.mode == own.mode
  {
    SameNearest(before, parent, comps, k, j);
    assert Settled(before[Node(parent, comps, k)], now[Node(parent, comps, k)], Inherited(before, parent, comps, k));
  }

  lemma Below(parent: Path, comps: seq<string>, k: nat)
    requires 0 < |comps| && k <= |comps| - 1
    ensures Node(Node(parent, comps, 1), comps[1..], k) == Node(parent, comps, k + 1)
    ensures k > 0 ==> Node(parent, comps, k + 1) != Node(parent, comps, 1)
  {
  }

  lemma StillWalkable(before: Attrs, now: Attrs, parent: Path, comps: seq<string>)
    requires Walkable(before, parent, comps) && |comps| > 1 && FirstStep(before, now, parent, Node(parent, comps, 1))
    ensures Walkable(now, Node(parent, comps, 1), comps[1..])
  {
    var handle, rest := Node(parent, comps, 1), comps[1..];
    forall k | 0 < k <= |rest| ensures Node(handle, rest, k) in now {
      Below(parent, comps, k);
    }
    forall k | 0 < k < |rest| ensures IsDir(now[Node(handle, rest, k)]) {
      Below(parent, comps, k);
      assert IsDir(before[Node(parent, comps, k + 1)]);
    }
  }

  lemma OnlyNode(before: Attrs, now: Attrs, parent: Path, comps: seq<string>)
    requires Walkable(before, parent, comps) && |comps| == 1 && FirstStep(before, now, parent, Node(parent, comps, 1))
    ensures InheritedAlong(before, now, parent, comps)
  {
  }

  lemma SameNearest(attrs: Attrs, parent: Path, comps: seq<string>, k: nat, j: nat)
    requires Walkable(attrs, parent, comps) && j <= k <= |comps|
    requires j > 0 ==> IsInitialized(attrs[Node(parent, comps, j)])
    requires forall i :: j < i <= k ==> !IsInitialized(attrs[Node(parent, comps, i)])
    ensures Nearest(attrs, parent, comps, k) == j
  {
  }

  /** Seen from the first node, after it has inherited, the rest of the path inherits the same. */
  lemma SameBelow(before: Attrs, between: Attrs, parent: Path, comps: seq<string>, k: nat)
    requires Walkable(before, parent, comps) && |comps| > 1
    requires FirstStep(before, between, parent, Node(parent, comps, 1))
    requires Walkable(between, Node(parent, comps, 1), comps[1..]) && 0 < k <= |comps| - 1
    ensures Inherited(between, Node(parent, comps, 1), comps[1..], k) == Inherited(before, parent, comps, k + 1)
  {
    var handle, rest := Node(parent, comps, 1), comps[1..];
    var j := Nearest(between, handle, rest, k);
    forall i | j + 1 < i <= k + 1 ensures !IsInitialized(before[Node(parent, comps, i)]) {
      Below(parent, comps, i - 1);
      assert !IsInitialized(between[Node(handle, rest, i - 1)]);
    }
    if j > 0 {
      Below(parent, comps, j);
      SameNearest(before, parent, comps, k + 1, j + 1);
    } else {
      SameNearest(before, parent, comps, k + 1, if IsInitialized(before[handle]) then 1 else 0);
    }
  }

  lemma GoesOn(before: Attrs, between: Attrs, now: Attrs, parent: Path, comps: seq<string>)
    requires Walkable(before, parent, comps) && |comps| > 1
    requires FirstStep(before, between, parent, Node(parent, comps, 1))
    requires Walkable(between, Node(parent, comps, 1), comps[1..])
    requires InheritedAlong(between, now, Node(parent, comps, 1), comps[1..])
    ensures InheritedAlong(before, now, parent, comps)
  {
    var handle, rest := Node(parent, comps, 1), comps[1..];
    assert OffPath(handle, handle, rest) by {
      forall k | 0 < k <= |rest| ensures handle != Node(handle, rest, k) { Below(parent, comps, k); }
    }
    forall node | node in before && OffPath(node, parent, comps) ensures now[node] == before[node] {
      forall k | 0 < k <= |rest| ensures node != Node(handle, rest, k) { Below(parent, comps, k); }
      assert OffPath(node, handle, rest);
    }
    forall k | 0 < k <= |comps|
      ensures Settled(before[Node(parent, comps, k)], now[Node(parent, comps, k)], Inherited(before, parent, comps, k))
    {
      if k == 1 {
        assert Nearest(before, parent, comps, 0) == 0;
      } else {
        Below(parent, comps, k - 1);
        SameBelow(before, between, parent, comps, k - 1);
        assert Settled(between[Node(handle, rest, k - 1)], now[Node(handle, rest, k - 1)],
                       Inherited(between, handle, rest, k - 1));
      }
    }
  }
}
