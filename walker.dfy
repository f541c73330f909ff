/** The walk itself: the inner loop over one directory's entries, one
    iteration of the outer loop, and the whole walk, each proved against the
    model of the walk in WalkModel. */
module Walker {
  import opened Text
  import opened FileSystem
  import opened WalkModel

  /** The inner loop of the walk over the entries of one listed directory n:
      one callback call per entry, in order, up to the first that fails; a
      push for every entry the callback lets through that leads to a
      directory whose canonical path is unseen or cannot be resolved; and the
      seen set extended with the canonical paths of those pushes: exactly the
      scan ScanEntries describes. */
  method ScanDir(fs: FS, fn: (string, string, Entry) -> Signal, n: Node, seen: set<string>)
    returns (failed: bool, calls: seq<Visit>, kids: seq<Node>, seen': set<string>, ghost slots: seq<nat>)
    requires n.phys in fs.listing
    requires seen <= fs.Canon()
    ensures Scanned(fs, fn, n, seen, failed, calls, kids, slots, seen')
    ensures calls == VisitsOf(fs, n, fs.listing[n.phys][..|calls|])
    ensures failed <==> |calls| < |fs.listing[n.phys]| || (calls != [] && Call(fn, calls[|calls| - 1]) == Fail)
    ensures seen <= seen' <= fs.Canon()
    ensures Scan(failed, calls, kids, seen') == ScanEntries(fs, fn, n, fs.listing[n.phys], seen)
  {
    var entries := fs.listing[n.phys];
    failed, calls, kids, seen', slots := false, [], [], seen, [];
    var i := 0;
    while i < |entries|
      invariant 0 <= i <= |entries|
      invariant calls == VisitsOf(fs, n, entries[..i])
      invariant NoFail(fn, calls)
      invariant KidsFrom(fs, fn, n, kids, slots)
      invariant seen <= seen' <= fs.Canon() && FreshKids(fs, kids, seen, seen')
      invariant Scan(false, calls, kids, seen') == ScanEntries(fs, fn, n, entries[..i], seen)
    {
      assert entries[..i + 1][..i] == entries[..i];
      ghost var before := calls;
      var sig;
      sig, calls, kids, seen', slots := ScanStep(fs, fn, n, seen, i, calls, kids, seen', slots);
      assert calls[..|calls| - 1] == before;
      if sig == Fail {
        failed := true;
        assert Scanned(fs, fn, n, seen, failed, calls, kids, slots, seen');
        ScannedCalls(fs, fn, n, seen, failed, calls, kids, slots, seen');
        FailedScanStays(fs, fn, n, entries, i + 1, seen);
        return;
      }
      i := i + 1;
    }
    assert entries[..i] == entries;
    assert Scanned(fs, fn, n, seen, failed, calls, kids, slots, seen');
    ScannedCalls(fs, fn, n, seen, failed, calls, kids, slots, seen');
  }

  /** The body of the inner loop for the entry at index i of n: its call,
      and a push when the callback lets it through to a directory whose
      canonical path is unseen or cannot be resolved. */
  method ScanStep(fs: FS, fn: (string, string, Entry) -> Signal, n: Node, seen: set<string>, i: nat,
                  calls: seq<Visit>, kids: seq<Node>, seen': set<string>, ghost slots: seq<nat>)
    returns (sig: Signal, calls': seq<Visit>, kids': seq<Node>, seen'': set<string>, ghost slots': seq<nat>)
    requires n.phys in fs.listing && i < |fs.listing[n.phys]|
    requires KidsFrom(fs, fn, n, kids, slots)
    requires seen <= seen' <= fs.Canon() && FreshKids(fs, kids, seen, seen')
    ensures sig == Call(fn, VisitOf(fs, n, fs.listing[n.phys][i]))
    ensures calls' == calls + [VisitOf(fs, n, fs.listing[n.phys][i])]
    ensures Scan(sig == Fail, calls', kids', seen'') ==
            ScanEntry(fs, fn, n, Scan(false, calls, kids, seen'), fs.listing[n.phys][i])
    ensures KidsFrom(fs, fn, n, kids', slots')
    ensures seen <= seen'' <= fs.Canon() && FreshKids(fs, kids', seen, seen'')
  {
    var e := fs.listing[n.phys][i];
    var rel := ChildRel(n.rel, e.name);
    var child := Follow(fs, n.phys, e);
    sig := fn(rel, child.phys, e);
    calls', kids', seen'', slots' := calls + [Visit(rel, child.phys, e)], kids, seen', slots;
    if sig == Proceed && child.isDir {
      var isNew := true;
      if child.phys in fs.resolve {
        var canon := fs.resolve[child.phys];
        if canon in seen' {
          isNew := false;
        } else {
          seen'' := seen' + {canon};
        }
      }
      if isNew {
        var c := Node(child.phys, rel);
        KidsFromPush(fs, fn, n, kids, slots, i, c);
        FreshKidsPush(fs, kids, seen, seen', c);
        kids' := kids + [c];
        slots' := slots + [i];
      }
    }
  }

  /** One iteration of the walk's outer loop: pop a directory, list it and
      scan its entries. Either the walk ends here with a failure, or its
      invariant holds again and its measure went down. */
  method WalkOnce(fs: FS, fn: (string, string, Entry) -> Signal, root: string,
                  stack: seq<Node>, seen: set<string>, visits: seq<Visit>,
                  ghost popped: seq<Node>, ghost pushed: seq<Node>,
                  ghost parent: seq<nat>, ghost slot: seq<nat>)
    returns (failed: bool, stack': seq<Node>, seen': set<string>, visits': seq<Visit>,
             ghost popped': seq<Node>, ghost pushed': seq<Node>,
             ghost parent': seq<nat>, ghost slot': seq<nat>)
    requires fs.Valid() && stack != []
    requires seen <= fs.Canon()
    requires WalkInv(fs, fn, root, popped, stack, visits, pushed, parent, slot, seen) == true
    ensures failed ==> RunWalk(fs, fn, stack, seen, visits) == (false, visits')
    ensures !failed ==> seen' <= fs.Canon() &&
                        RunWalk(fs, fn, stack', seen', visits') == RunWalk(fs, fn, stack, seen, visits)
    ensures failed ==> WalkOutcome(fs, fn, root, false, visits', popped', pushed', parent', slot') == true
    ensures !failed ==> WalkInv(fs, fn, root, popped', stack', visits', pushed', parent', slot', seen') == true
    ensures !failed ==> |fs.Canon() - seen'| < |fs.Canon() - seen|
                        || (|fs.Canon() - seen'| == |fs.Canon() - seen| &&
                            LiveCount(fs, stack') < LiveCount(fs, stack))
  {
    var n := stack[|stack| - 1];
    var rest := stack[..|stack| - 1];
    assert stack == rest + [n];
    pushed', parent', slot' := pushed, parent, slot;
    if n.phys !in fs.listing {
      FailUnlisted(fs, fn, root, popped, rest, n, visits, pushed, parent, slot, seen);
      failed, stack', seen', visits', popped' := true, rest, seen, visits, popped + [n];
      return;
    }
    var calls, kids;
    ghost var slots;
    failed, calls, kids, seen', slots := ScanDir(fs, fn, n, seen);
    if failed {
      FailCallback(fs, fn, root, popped, rest, n, visits, pushed, parent, slot, seen, calls, kids, slots, seen');
      stack', visits', popped' := rest, visits + calls, popped + [n];
      return;
    }
    WalkStep(fs, fn, root, popped, rest, n, visits, pushed, parent, slot, seen, calls, kids, slots, seen');
    stack', visits', popped' := rest + kids, visits + calls, popped + [n];
    pushed', parent', slot' := pushed + kids, parent + Repeat(|popped|, |kids|), slot + slots;
  }

  /** walkFollowSymlinks(root, fn): the callback calls it makes, in order,
      and whether it succeeded. */
  method Walk(fs: FS, root: string, fn: (string, string, Entry) -> Signal)
    returns (ok: bool, visits: seq<Visit>,
             ghost popped: seq<Node>, ghost pushed: seq<Node>,
             ghost parent: seq<nat>, ghost slot: seq<nat>)
    requires fs.Valid()
    ensures WalkOutcome(fs, fn, root, ok, visits, popped, pushed, parent, slot) == true
    ensures ok ==> NoFail(fn, visits)
    ensures root !in fs.listing ==> !ok && visits == []
    ensures (ok, visits) == RunWalk(fs, fn, [Node(root, "")], {}, [])
  {
    var stack := [Node(root, "")];
    var seen: set<string> := {};
    visits := [];
    popped, pushed, parent, slot := [], [], [], [];
    while stack != []
      invariant seen <= fs.Canon()
      invariant WalkInv(fs, fn, root, popped, stack, visits, pushed, parent, slot, seen) == true
      invariant RunWalk(fs, fn, stack, seen, visits) == RunWalk(fs, fn, [Node(root, "")], {}, [])
      decreases |fs.Canon() - seen|, LiveCount(fs, stack)
    {
      var failed;
      failed, stack, seen, visits, popped, pushed, parent, slot :=
        WalkOnce(fs, fn, root, stack, seen, visits, popped, pushed, parent, slot);
      if failed {
        ok := false;
        OutcomeCalls(fs, fn, root, ok, visits, popped, pushed, parent, slot);
        return;
      }
    }
    WalkDone(fs, fn, root, popped, visits, pushed, parent, slot, seen);
    ok := true;
    OutcomeCalls(fs, fn, root, ok, visits, popped, pushed, parent, slot);
  }
}
