/** Static mounts routed by first path component: src/vfs/mount.rs. */
module Mount {
  import opened Base
  import opened Paths
  import opened MemTree
  import opened MemSpec
  import opened MemRuns
  import opened MemVfs
  import opened MemWorld

  /** `validate_mount_name`. */
  predicate IsMountName(name: string) { IsName(name) && name != "bin" }

  /** Where a path goes: the virtual root, or a mount and the components below it. */
  datatype Target = Root | In(mount: string, tail: Path)

  function Route(names: set<string>, path: string): Result<Target> {
    match Normalize(path)
    case Err(e) => Err(e)
    case Ok(p) =>
      if p == [] then Ok(Root)
      else if p[0] !in names then Err(ENOENT)
      else Ok(In(p[0], p[1..]))
  }

  /** The text a backend is given: `/` at the mount itself, else the remaining components. */
  function Inner(tail: Path): string { Absolute(tail) }

  /** Stripping the first component, rejoining and normalising again gives exactly the tail. */
  lemma RouteTail(names: set<string>, path: string)
    requires Route(names, path).Ok? && Route(names, path).value.In?
    ensures var t := Route(names, path).value;
      && Normalize(path) == Ok([t.mount] + t.tail)
      && Normalize(Inner(t.tail)) == Ok(t.tail)
  {
    NormalizeIsNormal(path);
    var p := Normalize(path).value;
    assert p == [p[0]] + p[1..];
    NormalizeAbsolute(p[1..]);
  }

  /** Two paths reach the same entry exactly when they normalise alike. */
  lemma RouteFaithful(names: set<string>, path: string, path': string)
    requires Route(names, path).Ok? && Route(names, path').Ok?
    ensures Route(names, path) == Route(names, path') <==> Normalize(path) == Normalize(path')
  {
    var r, r' := Route(names, path), Route(names, path');
    if r == r' && r.value.In? {
      RouteTail(names, path);
      RouteTail(names, path');
    }
  }

  // ----------------------------------------------------------------- decisions

  datatype Decision = Refuse(errno: Errno) | Forward(mount: string, call: Call)

  predicate IsPathCall(c: Call) {
    c.CallMkdir? || c.CallRename? || c.CallUnlink? || c.CallRmdir? || c.CallOpen?
  }

  /** What the router does with each call on a path. The mounts themselves and the virtual root
      can be neither created, removed, renamed nor opened. */
  function Decide(names: set<string>, c: Call): Decision
    requires IsPathCall(c)
  {
    match c
    case CallMkdir(path) =>
      (match Route(names, path)
       case Ok(In(m, tail)) => if tail == [] then Refuse(EEXIST) else Forward(m, CallMkdir(Inner(tail)))
       case Ok(Root) => Refuse(EACCES)
       case Err(e) => Refuse(if e == ENOENT then EACCES else e))
    case CallRename(from, to) => DecideRename(names, from, to)
    case CallUnlink(path) =>
      (match Route(names, path)
       case Ok(In(m, tail)) => if tail == [] then Refuse(EISDIR) else Forward(m, CallUnlink(Inner(tail)))
       case Ok(Root) => Refuse(EISDIR)
       case Err(e) => Refuse(e))
    case CallRmdir(path) =>
      (match Route(names, path)
       case Ok(In(m, tail)) => if tail == [] then Refuse(EBUSY) else Forward(m, CallRmdir(Inner(tail)))
       case Ok(Root) => Refuse(EBUSY)
       case Err(e) => Refuse(e))
    case CallOpen(path, mode) =>
      (match Route(names, path)
       case Ok(In(m, tail)) => if tail == [] then Refuse(EISDIR) else Forward(m, CallOpen(Inner(tail), mode))
       case Ok(Root) => Refuse(EISDIR)
       case Err(e) => Refuse(e))
  }

  function DecideRename(names: set<string>, from: string, to: string): Decision {
    match Route(names, from)
    case Err(e) => Refuse(e)
    case Ok(Root) => Refuse(EBUSY)
    case Ok(In(m, tail)) =>
      if tail == [] then Refuse(EBUSY)
      else match Route(names, to)
        case Err(e) => Refuse(if e == ENOENT then EACCES else e)
        case Ok(Root) => Refuse(EBUSY)
        case Ok(In(m', tail')) =>
          if tail' == [] then Refuse(EBUSY)
          else if m != m' then Refuse(EXDEV)
          else Forward(m, CallRename(Inner(tail), Inner(tail')))
  }

  /** The paths a call names. */
  function PathsOf(c: Call): seq<string>
    requires IsPathCall(c)
  {
    if c.CallRename? then [c.from, c.to] else [c.path]
  }

  /** A forwarded call is the same call with the mount's name taken off each path, all in one
      mount, and none of them is the mount itself. */
  lemma ForwardStripsMount(names: set<string>, c: Call)
    requires IsPathCall(c) && Decide(names, c).Forward?
    ensures var d := Decide(names, c);
      && d.mount in names && IsPathCall(d.call) && |PathsOf(d.call)| == |PathsOf(c)|
      && (c.CallOpen? ==> d.call.CallOpen? && d.call.mode == c.mode)
      && (c.CallRename? <==> d.call.CallRename?) && (c.CallMkdir? <==> d.call.CallMkdir?)
      && (c.CallUnlink? <==> d.call.CallUnlink?) && (c.CallRmdir? <==> d.call.CallRmdir?)
      && forall k :: 0 <= k < |PathsOf(c)| ==>
           && Normalize(PathsOf(c)[k]).Ok? && Normalize(PathsOf(d.call)[k]).Ok?
           && Normalize(PathsOf(c)[k]).value == [d.mount] + Normalize(PathsOf(d.call)[k]).value
           && Normalize(PathsOf(d.call)[k]).value != []
  {
    if c.CallRename? {
      RouteTail(names, c.from);
      RouteTail(names, c.to);
    } else {
      RouteTail(names, c.path);
    }
  }

  /** The path lies strictly below a mount of this name. */
  predicate Below(path: string, mount: string) {
    Normalize(path).Ok? && |Normalize(path).value| > 1 && Normalize(path).value[0] == mount
  }

  /** A call is forwarded exactly if all its paths lie strictly below one mount; a rename between
      two mounts is EXDEV, and an entry of the root itself can be neither made nor replaced. */
  lemma ForwardsExactly(names: set<string>, c: Call)
    requires IsPathCall(c)
    ensures Decide(names, c).Forward? <==>
      exists m :: m in names && forall k :: 0 <= k < |PathsOf(c)| ==> Below(PathsOf(c)[k], m)
    ensures c.CallRename? && (exists m, m' :: m in names && m' in names && m != m' && Below(c.from, m) && Below(c.to, m')) ==>
      Decide(names, c) == Refuse(EXDEV)
    ensures c.CallMkdir? && Normalize(c.path).Ok? && |Normalize(c.path).value| == 1 ==>
      Decide(names, c) == Refuse(if Normalize(c.path).value[0] in names then EEXIST else EACCES)
  {
    if Decide(names, c).Forward? {
      ForwardStripsMount(names, c);
      var m := Decide(names, c).mount;
      assert forall k :: 0 <= k < |PathsOf(c)| ==> Below(PathsOf(c)[k], m);
    }
    if m :| m in names && forall k :: 0 <= k < |PathsOf(c)| ==> Below(PathsOf(c)[k], m) {
      assert Below(PathsOf(c)[0], m);
      if c.CallRename? { assert Below(PathsOf(c)[1], m); }
    }
  }

  /** What a path that is not below a mount can be: the root, a mount, or nowhere. */
  predicate IsRoot(path: string) { Normalize(path) == Ok([]) }
  predicate IsMount(names: set<string>, path: string) {
    Normalize(path).Ok? && |Normalize(path).value| == 1 && Normalize(path).value[0] in names
  }
  predicate IsNowhere(names: set<string>, path: string) {
    Normalize(path).Ok? && Normalize(path).value != [] && Normalize(path).value[0] !in names
  }

  /** What is not forwarded, and why: an unreadable path is its own error, the root and the mounts
      are there and are directories in use, and nothing else is there or can be put there. */
  lemma RefusesAs(names: set<string>, c: Call)
    requires IsPathCall(c) && !c.CallRename?
    ensures Normalize(c.path).Err? ==> Decide(names, c) == Refuse(if c.CallMkdir? && Normalize(c.path).errno == ENOENT then EACCES else Normalize(c.path).errno)
    ensures IsRoot(c.path) ==> Decide(names, c) == Refuse(if c.CallMkdir? then EACCES else if c.CallRmdir? then EBUSY else EISDIR)
    ensures IsMount(names, c.path) ==> Decide(names, c) == Refuse(if c.CallMkdir? then EEXIST else if c.CallRmdir? then EBUSY else EISDIR)
    ensures IsNowhere(names, c.path) ==> Decide(names, c) == Refuse(if c.CallMkdir? then EACCES else ENOENT)
  {
  }

  /** A rename looks at its source first: the root and the mounts do not move, and do not give way. */
  lemma RenameRefusesAs(names: set<string>, from: string, to: string)
    ensures var d := Decide(names, CallRename(from, to));
      && (Normalize(from).Err? ==> d == Refuse(Normalize(from).errno))
      && (IsNowhere(names, from) ==> d == Refuse(ENOENT))
      && (IsRoot(from) || IsMount(names, from) ==> d == Refuse(EBUSY))
      && ((exists m :: m in names && Below(from, m)) ==>
            && (Normalize(to).Err? ==> d == Refuse(if Normalize(to).errno == ENOENT then EACCES else Normalize(to).errno))
            && (IsNowhere(names, to) ==> d == Refuse(EACCES))
            && (IsRoot(to) || IsMount(names, to) ==> d == Refuse(EBUSY)))
  {
  }

  // ------------------------------------------------------------------- handles

  /** Backend handle numbers only go up, and an open returns the next one. */
  lemma HandlesAdvance(s: S, q: Quota, c: Call)
    requires !c.CallRestore? && !c.CallSnapshot?
    ensures var (s', r) := Apply(s, q, c);
      && s.nextHandle <= s'.nextHandle
      && (c.CallOpen? && r.Opened? ==> r.handle == s.nextHandle < s'.nextHandle)
  {
    hide Normalize, GetNode, PutAt, CutAt, Spliced, Resized, Fits;
  }

  /** What a client of the mounted filesystem can ask. */
  datatype Request = Ask(call: Call) | AbortHandle(handle: FileHandle) | Read(handle: FileHandle, offset: u64, want: nat)

  predicate IsHandleCall(c: Call) { c.CallWrite? || c.CallTruncate? || c.CallClose? }
  predicate IsRequest(q: Request) { q.Ask? ==> IsPathCall(q.call) || IsHandleCall(q.call) }
  predicate OnHandle(q: Request) { q.Ask? ==> IsHandleCall(q.call) }

  function HandleOf(q: Request): FileHandle
    requires OnHandle(q)
  {
    if q.Ask? then q.call.handle else q.handle
  }

  predicate Releases(q: Request) { q.AbortHandle? || (q.Ask? && q.call.CallClose?) }

  datatype Opening = Opening(vfs: InMemoryVfs, inner: FileHandle)

  class MountedVfs {
    const mounts: map<string, InMemoryVfs>
    var handles: map<FileHandle, Opening>
    var nextHandle: nat

    ghost function Backends(): Volumes { mounts.Values }

    /** Every buffer that some backend holds. */
    ghost function Buffers(): set<ArcBytes> reads Backends() { Held(Backends(), {}) }

    /** Outer handles were issued in order, and name each open backend handle once. */
    ghost predicate TableValid()
      reads this, Backends()
    {
      && 1 <= nextHandle
      && (forall o :: o in handles ==>
            && 1 <= o < nextHandle && handles[o].vfs in Backends()
            && handles[o].inner < handles[o].vfs.view.nextHandle)
      && (forall o, o' :: o in handles && o' in handles && handles[o] == handles[o'] ==> o == o')
    }

    ghost predicate Valid()
      reads this, Backends(), set v, i | v in Backends() && i in v.state.files :: v.state.files[i].data
    {
      && (forall name :: name in mounts ==> IsMountName(name))
      && AllValid(Backends(), {}) && TableValid()
    }

    constructor (mounts: map<string, InMemoryVfs>)
      requires forall name :: name in mounts ==> IsMountName(name)
      requires AllValid(mounts.Values, {})
      ensures Valid() && this.mounts == mounts && handles == map[]
    {
      this.mounts := mounts;
      handles := map[];
      nextHandle := 1;
    }

    /** `insert_handle`. With fewer than 2^64 opens behind it the counter has not wrapped, so
        the number is neither zero nor taken and the first probe succeeds. */
    method InsertHandle(vfs: InMemoryVfs, inner: FileHandle) returns (outer: FileHandle)
      requires Valid() && nextHandle <= U64_MAX && vfs in Backends()
      requires inner < vfs.view.nextHandle && forall o :: o in handles ==> handles[o] != Opening(vfs, inner)
      modifies this
      ensures Valid() && outer == old(nextHandle) && outer !in old(handles) && outer != 0
      ensures handles == old(handles)[outer := Opening(vfs, inner)] && nextHandle == old(nextHandle) + 1
    {
      hide Inv;
      outer := nextHandle;
      nextHandle := nextHandle + 1;
      handles := handles[outer := Opening(vfs, inner)];
    }

    /** One backend did something; the table still fits, since handle numbers only go up. */
    method Forwarded(target: InMemoryVfs, c: Call) returns (r: Reply)
      requires Valid() && target in Backends() && !c.CallRestore? && !c.CallSnapshot?
      modifies target`state, target`view, BuffersOf(target.state.files)
      ensures Valid() && fresh(Buffers() - old(Buffers()))
      ensures (target.view, r) == Apply(old(target.view), target.quota, c)
      ensures c.CallOpen? && r.Opened? ==>
        r.handle == old(target.view.nextHandle) < target.view.nextHandle
      ensures forall v :: v in Backends() && v != target ==> v.view == old(v.view)
    {
      hide AllValid, Apply;
      HandlesAdvance(target.view, target.quota, c);
      r := PerformAmong(target, c, Backends(), {});
    }

    /** Exactly one backend did exactly this, and the rest show what they showed. */
    twostate predicate Did(vfs: InMemoryVfs, c: Call, r: Reply)
      requires !c.CallRestore? && !c.CallSnapshot?
      reads Backends(), vfs
    {
      && (vfs.view, r) == Apply(old(vfs.view), vfs.quota, c)
      && forall v :: v in Backends() && v != vfs ==> v.view == old(v.view)
    }

    /** The backend's answer is passed on, but an opened handle goes by a number never used yet. */
    twostate predicate Answered(vfs: InMemoryVfs, inner: Reply, r: Reply)
      reads this
    {
      if inner.Opened? then
        && r == Opened(old(nextHandle)) && old(nextHandle) !in old(handles) && nextHandle == old(nextHandle) + 1
        && handles == old(handles)[old(nextHandle) := Opening(vfs, inner.handle)]
      else r == inner && handles == old(handles) && nextHandle == old(nextHandle)
    }

    /** The router's decision was carried out, and nothing else happened. */
    twostate predicate Followed(d: Decision, inner: Reply, r: Reply)
      reads this, Backends()
    {
      match d
      case Refuse(e) => r == Failed(e) && handles == old(handles) && nextHandle == old(nextHandle) && forall v :: v in Backends() ==> v.view == old(v.view)
      case Forward(m, c) => m in mounts && IsPathCall(c) && Did(mounts[m], c, inner) && Answered(mounts[m], inner, r)
    }

    /** A forwarded path call. An open is answered with a new outer handle for the backend's. */
    method ForwardPath(vfs: InMemoryVfs, c: Call) returns (r: Reply, ghost inner: Reply)
      requires Valid() && IsPathCall(c) && nextHandle <= U64_MAX && vfs in Backends()
      modifies this, vfs`state, vfs`view, BuffersOf(vfs.state.files)
      ensures Valid() && fresh(Buffers() - old(Buffers()))
      ensures Did(vfs, c, inner) && Answered(vfs, inner, r)
    {
      hide AllValid, Apply;
      if Apply(vfs.view, vfs.quota, c).1.Opened? {
        OnlyOpenOpens(vfs.view, vfs.quota, c);
      }
      r := Forwarded(vfs, c);
      inner := r;
      if r.Opened? {
        var outer := InsertHandle(vfs, r.handle);
        r := Opened(outer);
      }
    }

    /** Any call on a path: refused with nothing changed, or done by exactly one backend on the
        path below its mount. */
    method PathCall(c: Call) returns (r: Reply, d: Decision, ghost inner: Reply)
      requires Valid() && IsPathCall(c) && nextHandle <= U64_MAX
      modifies this, Backends(), Buffers()
      ensures Valid() && fresh(Buffers() - old(Buffers()))
      ensures d == Decide(mounts.Keys, c) && Followed(d, inner, r)
    {
      hide AllValid, Apply, Decide, Did;
      d := Decide(mounts.Keys, c);
      if d.Refuse? { return Failed(d.errno), d, Failed(d.errno); }
      ForwardStripsMount(mounts.Keys, c);
      r, inner := ForwardPath(mounts[d.mount], d.call);
    }

    /** Any call on an outer handle: EBADF when it is not open, else the same call on the inner
        handle of the backend that opened it. Closing forgets the outer handle first. */
    method HandleCall(c: Call) returns (r: Reply)
      requires Valid() && IsHandleCall(c)
      modifies this, Backends(), Buffers()
      ensures Valid() && fresh(Buffers() - old(Buffers())) && nextHandle == old(nextHandle)
      ensures c.handle !in old(handles) ==>
        r == Failed(EBADF) && handles == old(handles) && forall v :: v in Backends() ==> v.view == old(v.view)
      ensures c.handle in old(handles) ==>
        && Did(old(handles)[c.handle].vfs, c.(handle := old(handles)[c.handle].inner), r)
        && handles == if c.CallClose? then old(handles) - {c.handle} else old(handles)
    {
      hide AllValid, Apply;
      if c.handle !in handles { return Failed(EBADF); }
      var o := handles[c.handle];
      if c.CallClose? {
        handles := handles - {c.handle};
      }
      r := Forwarded(o.vfs, c.(handle := o.inner));
    }

    /** `abort`: forgets the outer handle and aborts the inner one, which these backends close. */
    method Abort(outer: FileHandle) returns (r: Reply)
      requires Valid()
      modifies this, Backends(), Buffers()
      ensures Valid() && fresh(Buffers() - old(Buffers())) && nextHandle == old(nextHandle)
      ensures outer !in old(handles) ==>
        r == Failed(EBADF) && handles == old(handles) && forall v :: v in Backends() ==> v.view == old(v.view)
      ensures outer in old(handles) ==>
        && Did(old(handles)[outer].vfs, CallClose(old(handles)[outer].inner), r) && handles == old(handles) - {outer}
    {
      hide AllValid, Apply;
      r := HandleCall(CallClose(outer));
    }

    /** A handle that was given out and is not open any more. */
    predicate Closed(h: FileHandle)
      reads this
    {
      h < nextHandle && h !in handles
    }

    /** Any one request. What was closed stays closed and is answered EBADF. */
    method Serve(q: Request) returns (r: Reply)
      requires Valid() && nextHandle <= U64_MAX && IsRequest(q)
      modifies this, Backends(), Buffers()
      ensures Valid() && fresh(Buffers() - old(Buffers())) && nextHandle <= old(nextHandle) + 1
      ensures forall h :: old(Closed(h)) ==> Closed(h)
      ensures OnHandle(q) && HandleOf(q) !in old(handles) ==> r == Failed(EBADF) && handles == old(handles)
      ensures OnHandle(q) && Releases(q) && HandleOf(q) in old(handles) ==> Closed(HandleOf(q))
    {
      hide AllValid, Apply, Decide, Did;
      match q
      case Read(h, offset, want) => r := ReadAt(h, offset, want);
      case AbortHandle(h) => r := Abort(h);
      case Ask(c) =>
        if IsPathCall(c) {
          var d;
          ghost var inner;
          r, d, inner := PathCall(c);
        } else {
          r := HandleCall(c);
        }
    }

    /** Any sequence of requests with fewer than 2^64 opens: a handle that was closed before it is
        answered EBADF throughout, and is never given out again. */
    method ServeAll(requests: seq<Request>) returns (replies: seq<Reply>)
      requires Valid() && nextHandle + |requests| <= U64_MAX && forall k :: 0 <= k < |requests| ==> IsRequest(requests[k])
      modifies this, Backends(), Buffers()
      ensures Valid() && fresh(Buffers() - old(Buffers())) && |replies| == |requests|
      ensures forall h :: old(Closed(h)) ==> Closed(h)
      ensures forall k :: 0 <= k < |requests| && OnHandle(requests[k]) && old(Closed(HandleOf(requests[k]))) ==> replies[k] == Failed(EBADF)
    {
      hide AllValid, Buffers, TableValid;
      replies := [];
      while |replies| < |requests|
        invariant |replies| <= |requests| && Valid() && nextHandle <= old(nextHandle) + |replies|
        invariant forall b :: b in Buffers() ==> b in old(Buffers()) || fresh(b)
        invariant forall h :: old(Closed(h)) ==> Closed(h)
        invariant forall k :: 0 <= k < |replies| && OnHandle(requests[k]) && old(Closed(HandleOf(requests[k]))) ==> replies[k] == Failed(EBADF)
      {
        ghost var before := Buffers();
        label L:
        var r := Serve(requests[|replies|]);
        forall b | b in Buffers() ensures b in old(Buffers()) || fresh(b) {
          assert b in before || fresh@L(b);
        }
        replies := replies + [r];
      }
    }

    method ReadAt(outer: FileHandle, offset: u64, want: nat) returns (r: Reply)
      requires Valid()
      ensures r == if outer in handles then MemSpec.ReadAt(handles[outer].vfs.view, handles[outer].inner, offset, want)
                   else Failed(EBADF)
    {
      if outer !in handles { return Failed(EBADF); }
      r := handles[outer].vfs.ReadAt(handles[outer].inner, offset, want);
    }
  }

  lemma OnlyOpenOpens(s: S, q: Quota, c: Call)
    requires !c.CallRestore? && !c.CallSnapshot? && Apply(s, q, c).1.Opened?
    ensures c.CallOpen?
  {
    hide Normalize, GetNode, PutAt, CutAt, Spliced, Resized, Fits;
  }
}
