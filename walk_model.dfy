/** walkFollowSymlinks: a depth-first walk with an explicit stack that follows
    symbolic links to directories, reports every entry to a callback under
    its logical path (spelled with the link names), and remembers the
    canonical path of every directory it has scheduled so that a link cycle
    is entered only once. The root itself is never remembered. */
module WalkModel {
  import opened Text
  import opened FileSystem

  /** The callback's answer: carry on, do not descend into this entry
      (filepath.SkipDir), or stop the walk with an error. */
  datatype Signal = Proceed | SkipDir | Fail

  /** A directory on the stack: where it is read from, and its path relative
      to the root as the user sees it ("" for the root). */
  datatype Node = Node(phys: string, rel: string)

  /** The arguments of one callback call. */
  datatype Visit = Visit(rel: string, phys: string, entry: Entry)

  /** The logical path of a child: its name under the root, joined to the
      parent's path below it. */
  function ChildRel(parentRel: string, name: string): string {
    if parentRel == "" then name else Join(parentRel, name)
  }

  /** The callback call made for entry e of the directory n. */
  function VisitOf(fs: FS, n: Node, e: Entry): (v: Visit)
    ensures v.entry == e && v.rel == ChildRel(n.rel, e.name)
    ensures v.phys == Follow(fs, n.phys, e).phys
  {
    Visit(ChildRel(n.rel, e.name), Follow(fs, n.phys, e).phys, e)
  }

  /** The callback calls made, in order, for the entries es of n. */
  function VisitsOf(fs: FS, n: Node, es: seq<Entry>): (r: seq<Visit>)
    ensures |r| == |es|
  {
    if es == [] then [] else VisitsOf(fs, n, es[..|es| - 1]) + [VisitOf(fs, n, es[|es| - 1])]
  }

  /** The callback calls of a walk that listed the directories ns, in order. */
  ghost function AllVisits(fs: FS, ns: seq<Node>): seq<Visit> {
    if ns == [] then []
    else AllVisits(fs, ns[..|ns| - 1]) + VisitsOf(fs, ns[|ns| - 1], fs.Entries(ns[|ns| - 1].phys))
  }

  function Call(fn: (string, string, Entry) -> Signal, v: Visit): Signal {
    fn(v.rel, v.phys, v.entry)
  }

  /** node is what is pushed for the entry at index i of the directory par:
      the callback let that entry through and it leads to a directory. */
  predicate PushedFor(fs: FS, fn: (string, string, Entry) -> Signal, par: Node, i: nat, node: Node) {
    par.phys in fs.listing && i < |fs.listing[par.phys]| &&
    var e := fs.listing[par.phys][i];
    var c := Follow(fs, par.phys, e);
    var rel := ChildRel(par.rel, e.name);
    c.isDir && fn(rel, c.phys, e) == Proceed && node == Node(c.phys, rel)
  }

  /** The stacked directories that can still be listed. */
  function LiveCount(fs: FS, stack: seq<Node>): nat {
    if stack == [] then 0 else LiveCount(fs, stack[..|stack| - 1]) + fs.Live(stack[|stack| - 1].phys)
  }

  /** n copies of x. */
  function Repeat(x: nat, n: nat): (r: seq<nat>)
    ensures |r| == n && forall k :: 0 <= k < n ==> r[k] == x
  {
    if n == 0 then [] else Repeat(x, n - 1) + [x]
  }

  /** Every push k came from entry slot[k] of the popped directory
      parent[k]. */
  predicate Provenance(fs: FS, fn: (string, string, Entry) -> Signal, popped: seq<Node>,
                       pushed: seq<Node>, parent: seq<nat>, slot: seq<nat>)
  {
    |parent| == |pushed| && |slot| == |pushed| &&
    forall k :: 0 <= k < |pushed| ==>
      parent[k] < |popped| && PushedFor(fs, fn, popped[parent[k]], slot[k], pushed[k])
  }

  /** No two pushes that resolve share a canonical path. */
  predicate DistinctCanon(fs: FS, pushed: seq<Node>) {
    forall i, j :: 0 <= i < j < |pushed| && pushed[i].phys in fs.resolve && pushed[j].phys in fs.resolve ==>
      fs.resolve[pushed[i].phys] != fs.resolve[pushed[j].phys]
  }

  /** The canonical path of every push that resolves is in seen. */
  predicate Recorded(fs: FS, pushed: seq<Node>, seen: set<string>) {
    forall k :: 0 <= k < |pushed| && pushed[k].phys in fs.resolve ==> fs.resolve[pushed[k].phys] in seen
  }

  /** Push k of kids came from entry slots[k] of the directory n. */
  predicate KidsFrom(fs: FS, fn: (string, string, Entry) -> Signal, n: Node, kids: seq<Node>, slots: seq<nat>)
  {
    |slots| == |kids| && forall k :: 0 <= k < |kids| ==> PushedFor(fs, fn, n, slots[k], kids[k])
  }

  /** The pushes kids of one directory against the seen set before (seen)
      and after (seen') its scan: the canonical path of each push that
      resolves was unseen and is now recorded, no two of them share one, and
      when nothing was recorded no push resolves. */
  predicate FreshKids(fs: FS, kids: seq<Node>, seen: set<string>, seen': set<string>) {
    (forall k :: 0 <= k < |kids| && kids[k].phys in fs.resolve ==>
       fs.resolve[kids[k].phys] in seen' && fs.resolve[kids[k].phys] !in seen) &&
    DistinctCanon(fs, kids) &&
    (seen' == seen ==> forall k :: 0 <= k < |kids| ==> kids[k].phys !in fs.resolve)
  }

  /** Pushing the entry at index i keeps the provenance of the pushes. */
  lemma KidsFromPush(fs: FS, fn: (string, string, Entry) -> Signal, n: Node, kids: seq<Node>, slots: seq<nat>,
                     i: nat, c: Node)
    requires KidsFrom(fs, fn, n, kids, slots)
    requires PushedFor(fs, fn, n, i, c)
    ensures KidsFrom(fs, fn, n, kids + [c], slots + [i])
  {
    var ks, ss := kids + [c], slots + [i];
    forall k | 0 <= k < |ks|
      ensures PushedFor(fs, fn, n, ss[k], ks[k])
    {
      if k < |kids| {
        assert ks[k] == kids[k] && ss[k] == slots[k];
      }
    }
  }

  /** Pushing a directory whose canonical path, if any, is not yet recorded,
      and recording it. */
  lemma FreshKidsPush(fs: FS, kids: seq<Node>, seen: set<string>, cur: set<string>, c: Node)
    requires seen <= cur && FreshKids(fs, kids, seen, cur)
    requires c.phys in fs.resolve ==> fs.resolve[c.phys] !in cur
    ensures FreshKids(fs, kids + [c], seen,
                      if c.phys in fs.resolve then cur + {fs.resolve[c.phys]} else cur)
  {
    var ks := kids + [c];
    var cur' := if c.phys in fs.resolve then cur + {fs.resolve[c.phys]} else cur;
    forall k | 0 <= k < |ks| && ks[k].phys in fs.resolve
      ensures fs.resolve[ks[k].phys] in cur' && fs.resolve[ks[k].phys] !in seen
    {
      if k < |kids| {
        assert ks[k] == kids[k];
      }
    }
    forall i, j | 0 <= i < j < |ks| && ks[i].phys in fs.resolve && ks[j].phys in fs.resolve
      ensures fs.resolve[ks[i].phys] != fs.resolve[ks[j].phys]
    {
      assert ks[i] == kids[i];
      if j < |kids| {
        assert ks[j] == kids[j];
      }
    }
    if cur' == seen {
      forall k | 0 <= k < |ks|
        ensures ks[k].phys !in fs.resolve
      {
        if k < |kids| {
          assert ks[k] == kids[k];
        }
      }
    }
  }

  /** The pushes of the directory n, popped last, extend the provenance of
      the pushes before them. */
  lemma PushProvenance(fs: FS, fn: (string, string, Entry) -> Signal, popped: seq<Node>, n: Node,
                       pushed: seq<Node>, parent: seq<nat>, slot: seq<nat>, kids: seq<Node>, slots: seq<nat>)
    requires popped != [] && popped[|popped| - 1] == n
    requires Provenance(fs, fn, popped, pushed, parent, slot)
    requires KidsFrom(fs, fn, n, kids, slots)
    ensures Provenance(fs, fn, popped, pushed + kids, parent + Repeat(|popped| - 1, |kids|), slot + slots)
  {
    var all, par, sl := pushed + kids, parent + Repeat(|popped| - 1, |kids|), slot + slots;
    forall k | 0 <= k < |all|
      ensures par[k] < |popped| && PushedFor(fs, fn, popped[par[k]], sl[k], all[k])
    {
      PushedAt(fs, fn, popped, n, pushed, parent, slot, kids, slots, k);
    }
  }

  /** One push of the extended provenance. */
  lemma PushedAt(fs: FS, fn: (string, string, Entry) -> Signal, popped: seq<Node>, n: Node,
                 pushed: seq<Node>, parent: seq<nat>, slot: seq<nat>, kids: seq<Node>, slots: seq<nat>, k: nat)
    requires popped != [] && popped[|popped| - 1] == n
    requires Provenance(fs, fn, popped, pushed, parent, slot)
    requires KidsFrom(fs, fn, n, kids, slots)
    requires k < |pushed| + |kids|
    ensures var par := parent + Repeat(|popped| - 1, |kids|);
            par[k] < |popped| && PushedFor(fs, fn, popped[par[k]], (slot + slots)[k], (pushed + kids)[k])
  {
    if k >= |pushed| {
      var j := k - |pushed|;
      assert (pushed + kids)[k] == kids[j] && (slot + slots)[k] == slots[j];
      assert (parent + Repeat(|popped| - 1, |kids|))[k] == |popped| - 1;
    } else {
      assert (pushed + kids)[k] == pushed[k] && (slot + slots)[k] == slot[k];
      assert (parent + Repeat(|popped| - 1, |kids|))[k] == parent[k];
    }
  }

  /** The pushes of one directory, fresh against seen, keep the pushes
      recorded in the grown seen set and their canonical paths distinct. */
  lemma PushFresh(fs: FS, pushed: seq<Node>, kids: seq<Node>, seen: set<string>, seen': set<string>)
    requires Recorded(fs, pushed, seen) && DistinctCanon(fs, pushed)
    requires seen <= seen' && FreshKids(fs, kids, seen, seen')
    ensures Recorded(fs, pushed + kids, seen')
    ensures DistinctCanon(fs, pushed + kids)
  {
    var all := pushed + kids;
    forall k | 0 <= k < |all| && all[k].phys in fs.resolve
      ensures fs.resolve[all[k].phys] in seen'
    {
      if k >= |pushed| {
        assert all[k] == kids[k - |pushed|];
      }
    }
    forall i, j | 0 <= i < j < |all| && all[i].phys in fs.resolve && all[j].phys in fs.resolve
      ensures fs.resolve[all[i].phys] != fs.resolve[all[j].phys]
    {
      if j >= |pushed| && i < |pushed| {
        assert all[j] == kids[j - |pushed|];
      } else if i >= |pushed| {
        assert all[i] == kids[i - |pushed|] && all[j] == kids[j - |pushed|];
      }
    }
  }

  /** Popping n and pushing kids keeps every node either popped or stacked. */
  lemma StackBalance(popped: seq<Node>, stack: seq<Node>, n: Node, kids: seq<Node>,
                     pushed: seq<Node>, root: Node)
    requires multiset(popped) + multiset(stack + [n]) == multiset([root] + pushed)
    ensures multiset(popped + [n]) + multiset(stack + kids) == multiset([root] + (pushed + kids))
  {
    assert multiset(stack + [n]) == multiset(stack) + multiset{n};
    assert multiset(popped + [n]) == multiset(popped) + multiset{n};
    assert multiset(stack + kids) == multiset(stack) + multiset(kids);
    assert [root] + (pushed + kids) == ([root] + pushed) + kids;
  }

  /** Every node of ns can be listed. */
  predicate Listed(fs: FS, ns: seq<Node>) {
    forall k :: 0 <= k < |ns| ==> ns[k].phys in fs.listing
  }

  /** No call in vs failed. */
  predicate NoFail(fn: (string, string, Entry) -> Signal, vs: seq<Visit>) {
    forall k :: 0 <= k < |vs| ==> Call(fn, vs[k]) != Fail
  }

  /** Stacking directories that cannot be resolved adds nothing live. */
  lemma {:induction false} LiveCountUnresolved(fs: FS, a: seq<Node>, b: seq<Node>)
    requires fs.Valid()
    requires forall k :: 0 <= k < |b| ==> b[k].phys !in fs.resolve
    ensures LiveCount(fs, a + b) == LiveCount(fs, a)
    decreases |b|
  {
    if b == [] {
      assert a + b == a;
    } else {
      var c := b[..|b| - 1];
      assert (a + b)[..|a + b| - 1] == a + c;
      assert (a + b)[|a + b| - 1] == b[|b| - 1];
      assert b[|b| - 1].phys !in fs.listing;
      LiveCountUnresolved(fs, a, c);
    }
  }

  /** Popping one listable directory off the stack. */
  lemma PopLive(fs: FS, s: seq<Node>)
    requires s != [] && s[|s| - 1].phys in fs.listing
    ensures LiveCount(fs, s) == LiveCount(fs, s[..|s| - 1]) + 1
  {
  }

  lemma NoFailConcat(fn: (string, string, Entry) -> Signal, a: seq<Visit>, b: seq<Visit>)
    requires NoFail(fn, a) && NoFail(fn, b)
    ensures NoFail(fn, a + b)
  {
    forall k | 0 <= k < |a + b|
      ensures Call(fn, (a + b)[k]) != Fail
    {
      if k >= |a| {
        assert (a + b)[k] == b[k - |a|];
      }
    }
  }

  /** What scanning the listed directory n does, starting from the seen set
      seen: the calls made are those of a prefix of its entries, all of them
      unless the scan failed, in which case only the last call failed; the
      pushes come from its entries and are fresh against seen, and seen'
      records them. */
  predicate Scanned(fs: FS, fn: (string, string, Entry) -> Signal, n: Node, seen: set<string>,
                    failed: bool, calls: seq<Visit>, kids: seq<Node>, slots: seq<nat>, seen': set<string>)
  {
    n.phys in fs.listing &&
    |calls| <= |fs.listing[n.phys]| && calls == VisitsOf(fs, n, fs.listing[n.phys][..|calls|]) &&
    (!failed ==> |calls| == |fs.listing[n.phys]| && NoFail(fn, calls)) &&
    (failed ==> calls != [] && Call(fn, calls[|calls| - 1]) == Fail && NoFail(fn, calls[..|calls| - 1])) &&
    KidsFrom(fs, fn, n, kids, slots) &&
    seen <= seen' <= fs.Canon() && FreshKids(fs, kids, seen, seen')
  }

  /** What a scan says about its calls and the seen set alone. */
  lemma ScannedCalls(fs: FS, fn: (string, string, Entry) -> Signal, n: Node, seen: set<string>,
                     failed: bool, calls: seq<Visit>, kids: seq<Node>, slots: seq<nat>, seen': set<string>)
    requires Scanned(fs, fn, n, seen, failed, calls, kids, slots, seen')
    ensures calls == VisitsOf(fs, n, fs.listing[n.phys][..|calls|])
    ensures failed <==> |calls| < |fs.listing[n.phys]| || (calls != [] && Call(fn, calls[|calls| - 1]) == Fail)
    ensures seen <= seen' <= fs.Canon()
  {
    if failed && |calls| == |fs.listing[n.phys]| {
      assert Call(fn, calls[|calls| - 1]) == Fail;
    }
  }

  /** Where a scan has got to: whether a call failed, the calls made, the
      pushes and the seen set. */
  datatype Scan = Scan(failed: bool, calls: seq<Visit>, kids: seq<Node>, seen: set<string>)

  /** The callback lets the entry e of n through and it leads to a
      directory. */
  predicate LetsThrough(fs: FS, fn: (string, string, Entry) -> Signal, n: Node, e: Entry) {
    var c := Follow(fs, n.phys, e);
    c.isDir && fn(ChildRel(n.rel, e.name), c.phys, e) == Proceed
  }

  /** The scan after one more entry e: its call is made; a failure ends the
      scan; an entry let through that leads to a directory is pushed unless
      its canonical path is already seen, and that path is recorded. */
  function ScanEntry(fs: FS, fn: (string, string, Entry) -> Signal, n: Node, s: Scan, e: Entry): (r: Scan)
    ensures |r.calls| == |s.calls| + 1 && r.calls[..|s.calls|] == s.calls
    ensures |s.kids| <= |r.kids| <= |s.kids| + 1 && r.kids[..|s.kids|] == s.kids
    ensures s.seen <= r.seen
  {
    var rel := ChildRel(n.rel, e.name);
    var c := Follow(fs, n.phys, e);
    var sig := fn(rel, c.phys, e);
    var calls := s.calls + [Visit(rel, c.phys, e)];
    if sig == Fail then Scan(true, calls, s.kids, s.seen)
    else if sig != Proceed || !c.isDir then Scan(false, calls, s.kids, s.seen)
    else if c.phys !in fs.resolve then Scan(false, calls, s.kids + [Node(c.phys, rel)], s.seen)
    else if fs.resolve[c.phys] in s.seen then Scan(false, calls, s.kids, s.seen)
    else Scan(false, calls, s.kids + [Node(c.phys, rel)], s.seen + {fs.resolve[c.phys]})
  }

  /** The scan of the entries es of n, in order, from the seen set seen,
      stopping at the first failing call. */
  function ScanEntries(fs: FS, fn: (string, string, Entry) -> Signal, n: Node, es: seq<Entry>, seen: set<string>)
    : (r: Scan)
    ensures |r.calls| <= |es| && (!r.failed ==> |r.calls| == |es|)
    ensures seen <= r.seen
  {
    if es == [] then Scan(false, [], [], seen)
    else
      var s := ScanEntries(fs, fn, n, es[..|es| - 1], seen);
      if s.failed then s else ScanEntry(fs, fn, n, s, es[|es| - 1])
  }

  /** Once a scan has failed, further entries change nothing. */
  lemma {:induction false} FailedScanStays(fs: FS, fn: (string, string, Entry) -> Signal, n: Node,
                                           es: seq<Entry>, j: nat, seen: set<string>)
    requires j <= |es| && ScanEntries(fs, fn, n, es[..j], seen).failed
    ensures ScanEntries(fs, fn, n, es, seen) == ScanEntries(fs, fn, n, es[..j], seen)
    decreases |es|
  {
    if j < |es| {
      var p := es[..|es| - 1];
      assert p[..j] == es[..j];
      FailedScanStays(fs, fn, n, p, j, seen);
    } else {
      assert es[..j] == es;
    }
  }

  /** The canonical paths of the pushes that resolve. */
  function KidsCanon(fs: FS, kids: seq<Node>): set<string> {
    set k | k in kids && k.phys in fs.resolve :: fs.resolve[k.phys]
  }

  lemma KidsCanonPush(fs: FS, kids: seq<Node>, c: Node)
    ensures KidsCanon(fs, kids + [c]) ==
            KidsCanon(fs, kids) + (if c.phys in fs.resolve then {fs.resolve[c.phys]} else {})
  {
    var extra: set<string> := if c.phys in fs.resolve then {fs.resolve[c.phys]} else {};
    forall x | x in KidsCanon(fs, kids + [c])
      ensures x in KidsCanon(fs, kids) + extra
    {
      var k :| k in kids + [c] && k.phys in fs.resolve && x == fs.resolve[k.phys];
      if k != c {
        assert k in kids;
      }
    }
    forall x | x in KidsCanon(fs, kids) + extra
      ensures x in KidsCanon(fs, kids + [c])
    {
      if x in KidsCanon(fs, kids) {
        var k :| k in kids && k.phys in fs.resolve && x == fs.resolve[k.phys];
        assert k in kids + [c];
      } else {
        assert c in kids + [c];
      }
    }
  }

  /** A scan's seen set grows by exactly the canonical paths of its
      pushes. */
  lemma {:induction false} ScanSeenGrows(fs: FS, fn: (string, string, Entry) -> Signal, n: Node,
                                         es: seq<Entry>, seen: set<string>)
    ensures var r := ScanEntries(fs, fn, n, es, seen); r.seen == seen + KidsCanon(fs, r.kids)
    decreases |es|
  {
    if es == [] {
      assert KidsCanon(fs, []) == {};
    } else {
      var s := ScanEntries(fs, fn, n, es[..|es| - 1], seen);
      ScanSeenGrows(fs, fn, n, es[..|es| - 1], seen);
      if !s.failed {
        var e := es[|es| - 1];
        var c := Node(Follow(fs, n.phys, e).phys, ChildRel(n.rel, e.name));
        KidsCanonPush(fs, s.kids, c);
      }
    }
  }

  /** A scan's pushes are fresh against the seen set it started from, and
      the seen set stays within the canonical paths. */
  lemma {:induction false} ScanFresh(fs: FS, fn: (string, string, Entry) -> Signal, n: Node,
                                     es: seq<Entry>, seen: set<string>)
    requires seen <= fs.Canon()
    ensures var r := ScanEntries(fs, fn, n, es, seen);
            r.seen <= fs.Canon() && FreshKids(fs, r.kids, seen, r.seen)
    decreases |es|
  {
    if es != [] {
      var s := ScanEntries(fs, fn, n, es[..|es| - 1], seen);
      ScanFresh(fs, fn, n, es[..|es| - 1], seen);
      if !s.failed {
        var e := es[|es| - 1];
        var c := Follow(fs, n.phys, e);
        var node := Node(c.phys, ChildRel(n.rel, e.name));
        if c.phys in fs.resolve {
          assert fs.resolve[c.phys] in fs.Canon();
        }
        if c.phys !in fs.resolve || fs.resolve[c.phys] !in s.seen {
          FreshKidsPush(fs, s.kids, seen, s.seen, node);
        }
      }
    }
  }

  /** No entry let through is lost: for every call of a scan whose entry
      the callback let through to a directory, that directory was pushed
      when it has no canonical path, and its canonical path is in the final
      seen set otherwise. */
  lemma {:induction false} ScanComplete(fs: FS, fn: (string, string, Entry) -> Signal, n: Node,
                                        es: seq<Entry>, seen: set<string>, i: nat)
    requires i < |ScanEntries(fs, fn, n, es, seen).calls|
    ensures i < |es|
    ensures LetsThrough(fs, fn, n, es[i]) ==>
              var r := ScanEntries(fs, fn, n, es, seen);
              var c := Follow(fs, n.phys, es[i]);
              (c.phys !in fs.resolve ==> Node(c.phys, ChildRel(n.rel, es[i].name)) in r.kids) &&
              (c.phys in fs.resolve ==> fs.resolve[c.phys] in r.seen)
    decreases |es|
  {
    var p := es[..|es| - 1];
    var s := ScanEntries(fs, fn, n, p, seen);
    var r := ScanEntries(fs, fn, n, es, seen);
    if i < |s.calls| {
      ScanComplete(fs, fn, n, p, seen, i);
      assert p[i] == es[i];
      if !s.failed {
        assert r.kids[..|s.kids|] == s.kids;
        assert forall k :: k in s.kids ==> k in r.kids;
      }
    } else {
      assert i == |es| - 1;
    }
  }

  /** The trace of the walk between two pops: the popped directories were
      all listed and their entries all reported, without a failure, and every
      node is either popped or still stacked. */
  ghost predicate WalkTrace(fs: FS, fn: (string, string, Entry) -> Signal, root: string,
                            popped: seq<Node>, stack: seq<Node>, visits: seq<Visit>, pushed: seq<Node>)
  {
    (popped == [] ==> stack == [Node(root, "")] && pushed == [] && visits == []) &&
    (popped != [] ==> popped[0] == Node(root, "")) &&
    Listed(fs, popped) && visits == AllVisits(fs, popped) && NoFail(fn, visits) &&
    multiset(popped) + multiset(stack) == multiset([Node(root, "")] + pushed)
  }

  /** The bookkeeping of the pushes: where each came from, and the seen set
      holding their distinct canonical paths. */
  ghost predicate PushLog(fs: FS, fn: (string, string, Entry) -> Signal, popped: seq<Node>,
                          pushed: seq<Node>, parent: seq<nat>, slot: seq<nat>, seen: set<string>)
  {
    Provenance(fs, fn, popped, pushed, parent, slot) &&
    Recorded(fs, pushed, seen) && DistinctCanon(fs, pushed) &&
    seen <= fs.Canon()
  }

  /** The invariant of the walk's outer loop. Contracts that only pass it on
      compare it with true, so that the verifier takes it as one fact rather
      than checking each of its parts again. */
  ghost predicate WalkInv(fs: FS, fn: (string, string, Entry) -> Signal, root: string,
                          popped: seq<Node>, stack: seq<Node>, visits: seq<Visit>,
                          pushed: seq<Node>, parent: seq<nat>, slot: seq<nat>, seen: set<string>)
  {
    WalkTrace(fs, fn, root, popped, stack, visits, pushed) &&
    PushLog(fs, fn, popped, pushed, parent, slot, seen)
  }

  /** Popping n, reporting all its entries and pushing kids extends the
      trace. */
  lemma TraceStep(fs: FS, fn: (string, string, Entry) -> Signal, root: string,
                  popped: seq<Node>, stack: seq<Node>, n: Node, visits: seq<Visit>, pushed: seq<Node>,
                  calls: seq<Visit>, kids: seq<Node>)
    requires WalkTrace(fs, fn, root, popped, stack + [n], visits, pushed) == true
    requires n.phys in fs.listing
    requires calls == VisitsOf(fs, n, fs.listing[n.phys]) && NoFail(fn, calls)
    ensures WalkTrace(fs, fn, root, popped + [n], stack + kids, visits + calls, pushed + kids)
  {
    var p := popped + [n];
    assert p[..|p| - 1] == popped;
    assert p[|p| - 1] == n;
    assert AllVisits(fs, p) == visits + calls;
    NoFailConcat(fn, visits, calls);
    StackBalance(popped, stack, n, kids, pushed, Node(root, ""));
  }

  /** One successful iteration of the walk preserves its invariant and
      decreases its measure. */
  lemma WalkStep(fs: FS, fn: (string, string, Entry) -> Signal, root: string,
                 popped: seq<Node>, stack: seq<Node>, n: Node, visits: seq<Visit>,
                 pushed: seq<Node>, parent: seq<nat>, slot: seq<nat>, seen: set<string>,
                 calls: seq<Visit>, kids: seq<Node>, slots: seq<nat>, seen': set<string>)
    requires fs.Valid()
    requires WalkInv(fs, fn, root, popped, stack + [n], visits, pushed, parent, slot, seen) == true
    requires Scanned(fs, fn, n, seen, false, calls, kids, slots, seen') == true
    ensures WalkInv(fs, fn, root, popped + [n], stack + kids, visits + calls, pushed + kids,
                    parent + Repeat(|popped|, |kids|), slot + slots, seen') == true
    ensures |fs.Canon() - seen'| < |fs.Canon() - seen|
            || (|fs.Canon() - seen'| == |fs.Canon() - seen| &&
                LiveCount(fs, stack + kids) < LiveCount(fs, stack + [n]))
  {
    assert fs.listing[n.phys][..|calls|] == fs.listing[n.phys];
    TraceStep(fs, fn, root, popped, stack, n, visits, pushed, calls, kids);
    var p := popped + [n];
    assert p[|p| - 1] == n;
    PushProvenance(fs, fn, p, n, pushed, parent, slot, kids, slots);
    PushFresh(fs, pushed, kids, seen, seen');
    WalkProgress(fs, stack, n, kids, seen, seen');
  }

  /** The measure of the walk goes down in a successful iteration. */
  lemma WalkProgress(fs: FS, stack: seq<Node>, n: Node, kids: seq<Node>, seen: set<string>, seen': set<string>)
    requires fs.Valid() && n.phys in fs.listing
    requires seen <= seen' <= fs.Canon() && FreshKids(fs, kids, seen, seen') == true
    ensures |fs.Canon() - seen'| < |fs.Canon() - seen|
            || (|fs.Canon() - seen'| == |fs.Canon() - seen| &&
                LiveCount(fs, stack + kids) < LiveCount(fs, stack + [n]))
  {
    PopLive(fs, stack + [n]);
    assert (stack + [n])[..|stack|] == stack;
    if seen' == seen {
      LiveCountUnresolved(fs, stack, kids);
    } else {
      var x :| x in seen' && x !in seen;
      assert (seen' - {x}) + {x} == seen';
      UncoveredShrinksStrictly(fs.Canon(), seen, seen' - {x}, x);
    }
  }

  /** A node popped after the others keeps their pushes' provenance. */
  lemma ProvenanceExtends(fs: FS, fn: (string, string, Entry) -> Signal, popped: seq<Node>, n: Node,
                          pushed: seq<Node>, parent: seq<nat>, slot: seq<nat>)
    requires Provenance(fs, fn, popped, pushed, parent, slot)
    ensures Provenance(fs, fn, popped + [n], pushed, parent, slot)
  {
    var p := popped + [n];
    forall k | 0 <= k < |pushed|
      ensures p[parent[k]] == popped[parent[k]]
    {
    }
  }

  /** What a finished walk from root has done. On success every listed
      directory's entries reached the callback in the order the directories
      were popped, no call failed, and the pushed directories are exactly the
      popped ones apart from the root. On failure either the last popped
      directory could not be listed, or the last call failed after a prefix
      of that directory's entries; everything before was reported as on
      success. In both cases each push came from an entry that the callback
      let through and that leads to a directory, and no two pushes share a
      canonical path. */
  ghost predicate WalkOutcome(fs: FS, fn: (string, string, Entry) -> Signal, root: string,
                              ok: bool, visits: seq<Visit>, popped: seq<Node>,
                              pushed: seq<Node>, parent: seq<nat>, slot: seq<nat>)
  {
    |popped| >= 1 && popped[0] == Node(root, "") &&
    Listed(fs, popped[..|popped| - 1]) &&
    (ok ==>
       Listed(fs, popped) && visits == AllVisits(fs, popped) && NoFail(fn, visits) &&
       multiset(popped) == multiset([Node(root, "")] + pushed)) &&
    (!ok && popped[|popped| - 1].phys !in fs.listing ==>
       visits == AllVisits(fs, popped[..|popped| - 1]) && NoFail(fn, visits)) &&
    (!ok && popped[|popped| - 1].phys in fs.listing ==>
       var last := popped[|popped| - 1];
       visits != [] && Call(fn, visits[|visits| - 1]) == Fail &&
       NoFail(fn, visits[..|visits| - 1]) &&
       exists j :: 0 < j <= |fs.listing[last.phys]| &&
         visits == AllVisits(fs, popped[..|popped| - 1]) + VisitsOf(fs, last, fs.listing[last.phys][..j])) &&
    Provenance(fs, fn, popped, pushed, parent, slot) && DistinctCanon(fs, pushed)
  }

  /** What an outcome says about the calls alone: a walk that succeeded
      had no failing call, and a root that cannot be listed fails the walk
      before any call. */
  lemma OutcomeCalls(fs: FS, fn: (string, string, Entry) -> Signal, root: string,
                     ok: bool, visits: seq<Visit>, popped: seq<Node>,
                     pushed: seq<Node>, parent: seq<nat>, slot: seq<nat>)
    requires WalkOutcome(fs, fn, root, ok, visits, popped, pushed, parent, slot) == true
    ensures ok ==> NoFail(fn, visits)
    ensures root !in fs.listing ==> !ok && visits == []
  {
    if root !in fs.listing {
      ListedPrefixHead(fs, popped);
      assert popped[..|popped| - 1] == [];
    }
  }

  /** The first of the directories listed before the last pop was listed. */
  lemma ListedPrefixHead(fs: FS, popped: seq<Node>)
    requires |popped| >= 1 && Listed(fs, popped[..|popped| - 1])
    ensures |popped| > 1 ==> popped[0].phys in fs.listing
  {
    if |popped| > 1 {
      assert popped[..|popped| - 1][0] == popped[0];
    }
  }

  /** The walk stops because the popped directory n cannot be listed. */
  lemma FailUnlisted(fs: FS, fn: (string, string, Entry) -> Signal, root: string,
                     popped: seq<Node>, stack: seq<Node>, n: Node, visits: seq<Visit>,
                     pushed: seq<Node>, parent: seq<nat>, slot: seq<nat>, seen: set<string>)
    requires WalkInv(fs, fn, root, popped, stack + [n], visits, pushed, parent, slot, seen) == true
    requires n.phys !in fs.listing
    ensures WalkOutcome(fs, fn, root, false, visits, popped + [n], pushed, parent, slot)
  {
    var p := popped + [n];
    assert p[..|p| - 1] == popped;
    ProvenanceExtends(fs, fn, popped, n, pushed, parent, slot);
  }

  /** The calls of a walk that failed in the callback on an entry of last,
      after the calls prior. */
  lemma FailedCalls(fs: FS, fn: (string, string, Entry) -> Signal, last: Node, prior: seq<Visit>,
                    calls: seq<Visit>, j: nat)
    requires last.phys in fs.listing && 0 < j <= |fs.listing[last.phys]|
    requires NoFail(fn, prior)
    requires calls == VisitsOf(fs, last, fs.listing[last.phys][..j])
    requires calls != [] && Call(fn, calls[|calls| - 1]) == Fail && NoFail(fn, calls[..|calls| - 1])
    ensures var v := prior + calls;
            v != [] && Call(fn, v[|v| - 1]) == Fail && NoFail(fn, v[..|v| - 1]) &&
            exists i :: 0 < i <= |fs.listing[last.phys]| &&
              v == prior + VisitsOf(fs, last, fs.listing[last.phys][..i])
  {
    var v := prior + calls;
    assert v[..|v| - 1] == prior + calls[..|calls| - 1];
    NoFailConcat(fn, prior, calls[..|calls| - 1]);
  }

  /** The walk stops because the callback failed on an entry of n. */
  lemma FailCallback(fs: FS, fn: (string, string, Entry) -> Signal, root: string,
                     popped: seq<Node>, stack: seq<Node>, n: Node, visits: seq<Visit>,
                     pushed: seq<Node>, parent: seq<nat>, slot: seq<nat>, seen: set<string>,
                     calls: seq<Visit>, kids: seq<Node>, slots: seq<nat>, seen': set<string>)
    requires WalkInv(fs, fn, root, popped, stack + [n], visits, pushed, parent, slot, seen) == true
    requires Scanned(fs, fn, n, seen, true, calls, kids, slots, seen') == true
    ensures WalkOutcome(fs, fn, root, false, visits + calls, popped + [n], pushed, parent, slot)
  {
    var p := popped + [n];
    assert p[..|p| - 1] == popped;
    FailedCalls(fs, fn, n, visits, calls, |calls|);
    ProvenanceExtends(fs, fn, popped, n, pushed, parent, slot);
  }

  /** An empty stack: the walk succeeded. */
  lemma WalkDone(fs: FS, fn: (string, string, Entry) -> Signal, root: string,
                 popped: seq<Node>, visits: seq<Visit>,
                 pushed: seq<Node>, parent: seq<nat>, slot: seq<nat>, seen: set<string>)
    requires WalkInv(fs, fn, root, popped, [], visits, pushed, parent, slot, seen) == true
    ensures WalkOutcome(fs, fn, root, true, visits, popped, pushed, parent, slot)
  {
    assert popped != [];
  }


  /** The walk from the stack stack and the seen set seen, after the calls
      done: whether it succeeds, and every callback call made, in order. The
      top directory is popped; one that cannot be listed ends the walk with
      an error; otherwise its entries are scanned, a failing call ends the
      walk, and the pushes go on the stack. */
  function RunWalk(fs: FS, fn: (string, string, Entry) -> Signal, stack: seq<Node>, seen: set<string>,
                   done: seq<Visit>): (r: (bool, seq<Visit>))
    requires fs.Valid() && seen <= fs.Canon()
    ensures |done| <= |r.1| && r.1[..|done|] == done
    decreases |fs.Canon() - seen|, LiveCount(fs, stack)
  {
    if stack == [] then (true, done)
    else
      var n := stack[|stack| - 1];
      var rest := stack[..|stack| - 1];
      if n.phys !in fs.listing then (false, done)
      else
        var s := ScanEntries(fs, fn, n, fs.listing[n.phys], seen);
        if s.failed then (false, done + s.calls)
        else
          assert stack == rest + [n];
          ScanFresh(fs, fn, n, fs.listing[n.phys], seen);
          WalkProgress(fs, rest, n, s.kids, seen, s.seen);
          var r := RunWalk(fs, fn, rest + s.kids, s.seen, done + s.calls);
          assert r.1[..|done|] == (done + s.calls)[..|done|];
          r
  }

  /** A small filesystem: /r holds the directory d, which holds the file f. */
  function NestedFS(): FS {
    FS(map["/r" := [Entry("d", true, false)], "/r/d" := [Entry("f", false, false)]],
       map["/r" := "/r", "/r/d" := "/r/d"], map[], map[], map[], "")
  }

  /** The callback that lets every entry through. */
  function LetAll(): (string, string, Entry) -> Signal {
    (rel, phys, e) => Proceed
  }

  /** Scanning /r calls the callback on d and pushes it. */
  lemma NestedTopScan()
    ensures ScanEntries(NestedFS(), LetAll(), Node("/r", ""), [Entry("d", true, false)], {}) ==
            Scan(false, [Visit("d", "/r/d", Entry("d", true, false))], [Node("/r/d", "d")], {"/r/d"})
  {
    var d := Entry("d", true, false);
    assert Join("/r", "d") == "/r/d";
    assert [d][..0] == [];
    assert Follow(NestedFS(), "/r", d) == Child("/r/d", true);
  }

  /** Scanning /r/d calls the callback on f, logically d/f, and pushes
      nothing. */
  lemma NestedSubScan()
    ensures ScanEntries(NestedFS(), LetAll(), Node("/r/d", "d"), [Entry("f", false, false)], {"/r/d"}) ==
            Scan(false, [Visit("d/f", "/r/d/f", Entry("f", false, false))], [], {"/r/d"})
  {
    var f := Entry("f", false, false);
    assert Join("/r/d", "f") == "/r/d/f" && Join("d", "f") == "d/f";
    assert [f][..0] == [];
    assert Follow(NestedFS(), "/r/d", f) == Child("/r/d/f", false);
  }

  /** The walk, once d is on the stack, lists it and ends. */
  lemma NestedSubWalk()
    ensures NestedFS().Valid() && {"/r/d"} <= NestedFS().Canon()
    ensures RunWalk(NestedFS(), LetAll(), [Node("/r/d", "d")], {"/r/d"}, [Visit("d", "/r/d", Entry("d", true, false))]) ==
            (true, [Visit("d", "/r/d", Entry("d", true, false)), Visit("d/f", "/r/d/f", Entry("f", false, false))])
  {
    var fs := NestedFS();
    var vd, vf := Visit("d", "/r/d", Entry("d", true, false)), Visit("d/f", "/r/d/f", Entry("f", false, false));
    NestedSubScan();
    assert fs.listing["/r/d"] == [Entry("f", false, false)];
    assert fs.resolve["/r/d"] == "/r/d";
    assert [Node("/r/d", "d")][..0] + [] == [] && [vd] + [vf] == [vd, vf];
  }

  /** A walk whose callback lets everything through enters the
      subdirectory and reports its file under the logical path d/f. */
  lemma WalkEntersSubdirectory()
    ensures NestedFS().Valid()
    ensures RunWalk(NestedFS(), LetAll(), [Node("/r", "")], {}, []) ==
            (true, [Visit("d", "/r/d", Entry("d", true, false)), Visit("d/f", "/r/d/f", Entry("f", false, false))])
  {
    var fs := NestedFS();
    NestedTopScan();
    NestedSubWalk();
    assert fs.listing["/r"] == [Entry("d", true, false)];
    assert [Node("/r", "")][..0] + [Node("/r/d", "d")] == [Node("/r/d", "d")];
  }
}
