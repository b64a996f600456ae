/** The explicit-stack height test of src/vfs/mem.rs, against the recursive one. */
module SubtreeFits {
  import opened Paths
  import opened MemTree

  /** One directory iterator: its entries and the names it has not yielded yet. */
  datatype Frame = Frame(entries: map<string, Node>, left: set<string>) {
    ghost predicate Valid() { left <= entries.Keys }

    /** The paths still to be visited through this iterator. */
    ghost function Pending(): set<Path>
      requires Valid()
    {
      set k, p | k in left && p in AllPaths(entries[k]) :: [k] + p
    }
  }

  ghost predicate ValidStack(stack: seq<Frame>) {
    forall i :: 0 <= i < |stack| ==> stack[i].Valid()
  }

  ghost predicate RestFits(stack: seq<Frame>, allowance: nat)
    requires ValidStack(stack)
  {
    forall i, k :: 0 <= i < |stack| && k in stack[i].left ==>
      i + 1 <= allowance && Fits(stack[i].entries[k], allowance - (i + 1))
  }

  ghost function Weight(stack: seq<Frame>): nat
    requires ValidStack(stack)
  {
    if stack == [] then 0
    else
      var last := |stack| - 1;
      Weight(stack[..last]) + 2 * |stack[last].Pending()| + 1
  }

  lemma WeightPush(stack: seq<Frame>, f: Frame)
    requires ValidStack(stack) && f.Valid()
    ensures ValidStack(stack + [f])
    ensures Weight(stack + [f]) == Weight(stack) + 2 * |f.Pending()| + 1
  {
    assert (stack + [f])[..|stack|] == stack;
  }

  lemma PendingStep(f: Frame, k: string)
    requires f.Valid() && k in f.left
    ensures |f.Pending()| == |f.(left := f.left - {k}).Pending()| + |AllPaths(f.entries[k])|
  {
    var image := Under(k, AllPaths(f.entries[k]));
    var rest := f.(left := f.left - {k}).Pending();
    UnderSize(k, AllPaths(f.entries[k]));
    forall p | p in rest ensures p[0] != k && p in f.Pending() {
      var k', q :| k' in f.left - {k} && q in AllPaths(f.entries[k']) && p == [k'] + q;
      assert p[0] == k';
    }
    forall p | p in image ensures p[0] == k && p in f.Pending() {
    }
    forall p | p in f.Pending() ensures p in rest + image {
      var k', q :| k' in f.left && q in AllPaths(f.entries[k']) && p == [k'] + q;
      if k' != k {
        assert k' in f.left - {k};
      }
    }
    assert f.Pending() == rest + image;
    assert rest !! image;
  }

  lemma PendingWhole(m: map<string, Node>)
    ensures |AllPaths(Directory(m))| == 1 + |Frame(m, m.Keys).Pending()|
  {
    assert [] !in Frame(m, m.Keys).Pending();
    assert AllPaths(Directory(m)) == {[]} + Frame(m, m.Keys).Pending();
  }

  lemma StartFits(node: Node, allowance: nat)
    requires node.Directory?
    ensures var stack := [Frame(node.entries, node.entries.Keys)];
            ValidStack(stack) && (Fits(node, allowance) <==> RestFits(stack, allowance))
  {
    var stack := [Frame(node.entries, node.entries.Keys)];
    assert Fits(node, allowance) <==>
           forall k :: k in node.entries ==> allowance >= 1 && Fits(node.entries[k], allowance - 1);
    if RestFits(stack, allowance) {
      forall k | k in node.entries ensures allowance >= 1 && Fits(node.entries[k], allowance - 1) {
        assert k in stack[0].left;
      }
    }
  }

  lemma PopFits(stack: seq<Frame>, allowance: nat)
    requires ValidStack(stack) && stack != [] && stack[|stack| - 1].left == {}
    ensures ValidStack(stack[..|stack| - 1]) && Weight(stack[..|stack| - 1]) < Weight(stack)
    ensures RestFits(stack, allowance) <==> RestFits(stack[..|stack| - 1], allowance)
  {
    var shorter := stack[..|stack| - 1];
    forall i, k | 0 <= i < |stack| && k in stack[i].left
      ensures i < |shorter| && k in shorter[i].left
    {
    }
    forall i, k | 0 <= i < |shorter| && k in shorter[i].left
      ensures k in stack[i].left
    {
    }
  }

  /** `subtree_fits`: one iterator per level, popped when exhausted. */
  method SubtreeFits(node: Node, allowance: nat) returns (fits: bool)
    ensures fits == Fits(node, allowance)
  {
    if node.File? {
      return true;
    }
    var stack := [Frame(node.entries, node.entries.Keys)];
    StartFits(node, allowance);
    while stack != []
      invariant ValidStack(stack)
      invariant Fits(node, allowance) <==> RestFits(stack, allowance)
      decreases Weight(stack)
    {
      var last := |stack| - 1;
      var top := stack[last];
      if top.left == {} {
        PopFits(stack, allowance);
        stack := stack[..last];
        continue;
      }
      var k :| k in top.left;
      if |stack| > allowance {
        assert !RestFits(stack, allowance) by { assert k in stack[last].left; }
        return false;
      }
      stack := Advance(stack, k, allowance);
    }
    return true;
  }

  /** Yields one name from the innermost iterator, entering it when it is a directory. */
  method Advance(stack: seq<Frame>, k: string, ghost allowance: nat) returns (next: seq<Frame>)
    requires ValidStack(stack) && stack != [] && k in stack[|stack| - 1].left
    requires |stack| <= allowance
    ensures ValidStack(next) && Weight(next) < Weight(stack)
    ensures RestFits(stack, allowance) <==> RestFits(next, allowance)
  {
    var last := |stack| - 1;
    var top := stack[last];
    var child := top.entries[k];
    var rest := top.(left := top.left - {k});
    PendingStep(top, k);
    AllPathsExact(child, []);
    assert [] in AllPaths(child);
    assert stack == stack[..last] + [top];
    WeightPush(stack[..last], top);
    WeightPush(stack[..last], rest);
    next := stack[..last] + [rest];
    if child.Directory? {
      PendingWhole(child.entries);
      var inner := Frame(child.entries, child.entries.Keys);
      WeightPush(next, inner);
      next := next + [inner];
      StepFits(stack, next, k, allowance);
    } else {
      StepFile(stack, next, k, allowance);
    }
  }

  lemma StepFile(before: seq<Frame>, after: seq<Frame>, k: string, allowance: nat)
    requires ValidStack(before) && before != [] && |before| <= allowance
    requires var top := before[|before| - 1];
      && k in top.left && top.entries[k].File?
      && after == before[..|before| - 1] + [top.(left := top.left - {k})]
    ensures ValidStack(after)
    ensures RestFits(before, allowance) <==> RestFits(after, allowance)
  {
    forall i, c | 0 <= i < |after| && c in after[i].left
      ensures c in before[i].left && after[i].entries == before[i].entries
    {
    }
    forall i, c | 0 <= i < |before| && c in before[i].left
      ensures (i == |before| - 1 && c == k) || (c in after[i].left && after[i].entries == before[i].entries)
    {
    }
  }

  /** Replacing a yielded directory by its own iterator keeps what is left to check. */
  lemma StepFits(before: seq<Frame>, after: seq<Frame>, k: string, allowance: nat)
    requires ValidStack(before) && before != [] && |before| <= allowance
    requires var top := before[|before| - 1];
      && k in top.left && top.entries[k].Directory?
      && after == before[..|before| - 1] + [top.(left := top.left - {k})]
                  + [Frame(top.entries[k].entries, top.entries[k].entries.Keys)]
    ensures ValidStack(after)
    ensures RestFits(before, allowance) <==> RestFits(after, allowance)
  {
    var last := |before| - 1;
    var child := before[last].entries[k];
    assert Fits(child, allowance - |before|) <==>
           forall c :: c in child.entries ==> |before| + 1 <= allowance && Fits(child.entries[c], allowance - |before| - 1);
    if RestFits(before, allowance) {
      forall i, c | 0 <= i < |after| && c in after[i].left
        ensures i + 1 <= allowance && Fits(after[i].entries[c], allowance - (i + 1))
      {
        if i <= last {
          assert c in before[i].left;
        } else {
          assert k in before[last].left;
        }
      }
    }
    if RestFits(after, allowance) {
      forall i, c | 0 <= i < |before| && c in before[i].left
        ensures i + 1 <= allowance && Fits(before[i].entries[c], allowance - (i + 1))
      {
        if i == last && c == k {
          forall d | d in child.entries
            ensures |before| + 1 <= allowance && Fits(child.entries[d], allowance - |before| - 1)
          {
            assert d in after[last + 1].left;
          }
        } else {
          assert c in after[i].left;
        }
      }
    }
  }
}
