/** writeTree: the ASCII tree of the "Project Structure" section. Entries
    the tree hides are dropped, directories come before files, a long run
    of files is folded into head, placeholder and tail, and symbolic links
    to directories are expanded once per canonical directory. */
module Tree {
  import opened Text
  import opened Utf8
  import opened FileSystem
  import opened Filter
  import opened Classify
  import opened WalkModel
  import opened Output
  import opened Wrappers

  /** One line of a directory's listing: a real entry, or the placeholder
      standing for the folded files. */
  datatype Item = Shown(entry: Entry) | Hidden(count: int)

  /** What rendering a directory produced: whether it could be listed, the
      text, and the canonical directories expanded so far. */
  datatype Rendered = Rendered(ok: bool, text: string, seen: set<string>)

  /** The tree shows an entry unless it is named like the output file, is
      junk, or its path below the root matches a hard filter. */
  predicate Visible(cfg: Config, hard: seq<string>, rel: string, e: Entry) {
    var path := ChildRel(rel, e.name);
    e.name != cfg.outputFile && !IsJunk(cfg, e.name) &&
    (path != "" ==> !CheckFilter(path, hard).0)
  }

  /** The visible entries, in listing order. */
  function VisibleEntries(cfg: Config, hard: seq<string>, rel: string, es: seq<Entry>): (r: seq<Entry>)
    ensures |r| <= |es|
  {
    if es == [] then []
    else
      var last := es[|es| - 1];
      VisibleEntries(cfg, hard, rel, es[..|es| - 1]) + (if Visible(cfg, hard, rel, last) then [last] else [])
  }

  /** Exactly the visible entries are kept. */
  lemma {:induction false} VisibleEntriesExact(cfg: Config, hard: seq<string>, rel: string, es: seq<Entry>)
    ensures forall e :: e in VisibleEntries(cfg, hard, rel, es) <==> e in es && Visible(cfg, hard, rel, e)
  {
    if es != [] {
      VisibleEntriesExact(cfg, hard, rel, es[..|es| - 1]);
      assert es == es[..|es| - 1] + [es[|es| - 1]];
    }
  }

  /** The entries that are directories by their own type, in order. */
  function DirsOf(es: seq<Entry>): (r: seq<Entry>)
    ensures forall k :: 0 <= k < |r| ==> r[k].isDir
  {
    if es == [] then []
    else DirsOf(es[..|es| - 1]) + (if es[|es| - 1].isDir then [es[|es| - 1]] else [])
  }

  /** The other entries (files, and links whatever they point to), in order. */
  function FilesOf(es: seq<Entry>): (r: seq<Entry>)
    ensures forall k :: 0 <= k < |r| ==> !r[k].isDir
  {
    if es == [] then []
    else FilesOf(es[..|es| - 1]) + (if es[|es| - 1].isDir then [] else [es[|es| - 1]])
  }

  /** Splitting loses and invents nothing. */
  lemma {:induction false} SplitIsPartition(es: seq<Entry>)
    ensures multiset(DirsOf(es) + FilesOf(es)) == multiset(es)
  {
    if es != [] {
      var init := es[..|es| - 1];
      SplitIsPartition(init);
      assert es == init + [es[|es| - 1]];
    }
  }

  /** Each entry shown as itself. */
  function ShowAll(es: seq<Entry>): (r: seq<Item>)
    ensures |r| == |es| && forall k :: 0 <= k < |es| ==> r[k] == Shown(es[k])
  {
    seq(|es|, k requires 0 <= k < |es| => Shown(es[k]))
  }

  /** The file lines: more than MaxDisplayFiles files (unless folding is
      off) become the first KeepHeadFiles, a placeholder, and the last
      KeepTailFiles. */
  function Fold(noFold: bool, files: seq<Entry>): seq<Item> {
    if !noFold && |files| > MaxDisplayFiles then
      var hidden := |files| - KeepHeadFiles - KeepTailFiles;
      ShowAll(files[..KeepHeadFiles]) +
      [Hidden(if hidden < 0 then 0 else hidden)] +
      ShowAll(files[|files| - KeepTailFiles..])
    else ShowAll(files)
  }

  /** A folded run is 17 lines; the placeholder's count is exactly the
      number of files left out, and the files kept are the first and last
      eight. Short runs, and any run with folding off, are shown whole. */
  lemma FoldShape(noFold: bool, files: seq<Entry>)
    ensures var r := Fold(noFold, files);
            if !noFold && |files| > MaxDisplayFiles then
              |r| == KeepHeadFiles + 1 + KeepTailFiles &&
              r[KeepHeadFiles] == Hidden(|files| - KeepHeadFiles - KeepTailFiles) &&
              KeepHeadFiles + r[KeepHeadFiles].count + KeepTailFiles == |files| &&
              (forall k :: 0 <= k < KeepHeadFiles ==> r[k] == Shown(files[k])) &&
              (forall k :: KeepHeadFiles < k < |r| ==> r[k] == Shown(files[|files| - |r| + k]))
            else r == ShowAll(files)
  {
  }

  /** The lines of one directory: its directories, never folded, then its
      (possibly folded) files. */
  function Layout(cfg: Config, hard: seq<string>, rel: string, es: seq<Entry>): seq<Item> {
    var vis := VisibleEntries(cfg, hard, rel, es);
    ShowAll(DirsOf(vis)) + Fold(cfg.noFold, FilesOf(vis))
  }

  /** Folding only drops files: every entry on a file line is one of the
      files. */
  lemma FoldKeepsFiles(noFold: bool, files: seq<Entry>)
    ensures var r := Fold(noFold, files);
            forall k :: 0 <= k < |r| && r[k].Shown? ==> r[k].entry in files
  {
    var r := Fold(noFold, files);
    FoldShape(noFold, files);
    forall k | 0 <= k < |r| && r[k].Shown?
      ensures r[k].entry in files
    {
      if !noFold && |files| > MaxDisplayFiles {
        if k < KeepHeadFiles {
          assert r[k].entry == files[k];
        } else {
          assert r[k].entry == files[|files| - |r| + k];
        }
      } else {
        assert r[k].entry == files[k];
      }
    }
  }

  /** Both halves of the split are drawn from the entries. */
  lemma SplitMembers(es: seq<Entry>)
    ensures forall e :: e in DirsOf(es) ==> e in es
    ensures forall e :: e in FilesOf(es) ==> e in es
  {
    SplitIsPartition(es);
    forall e | e in DirsOf(es) || e in FilesOf(es)
      ensures e in es
    {
      assert e in multiset(DirsOf(es) + FilesOf(es));
    }
  }

  /** Every visible directory gets its own line, ahead of all files; every
      real entry on a line is visible. */
  lemma LayoutShape(cfg: Config, hard: seq<string>, rel: string, es: seq<Entry>)
    ensures var vis := VisibleEntries(cfg, hard, rel, es);
            var items := Layout(cfg, hard, rel, es);
            items[..|DirsOf(vis)|] == ShowAll(DirsOf(vis)) &&
            forall k :: 0 <= k < |items| && items[k].Shown? ==>
              items[k].entry in es && Visible(cfg, hard, rel, items[k].entry)
  {
    var vis := VisibleEntries(cfg, hard, rel, es);
    var d := DirsOf(vis);
    var f := FilesOf(vis);
    var items := Layout(cfg, hard, rel, es);
    assert items == ShowAll(d) + Fold(cfg.noFold, f);
    VisibleEntriesExact(cfg, hard, rel, es);
    SplitMembers(vis);
    FoldKeepsFiles(cfg.noFold, f);
    forall k | 0 <= k < |items| && items[k].Shown?
      ensures items[k].entry in vis
    {
      if k < |d| {
        assert items[k].entry == d[k];
      } else {
        assert items[k] == Fold(cfg.noFold, f)[k - |d|];
      }
    }
  }

  /** The decimal digits of n, as %d prints them. */
  function Decimal(n: nat): (r: string)
    ensures r != [] && forall k :: 0 <= k < |r| ==> '0' <= r[k] <= '9'
  {
    if n < 10 then [('0' as int + n) as char]
    else Decimal(n / 10) + [('0' as int + n % 10) as char]
  }

  /** Reading decimal digits back. */
  function DigitsValue(s: string): nat
    requires forall k :: 0 <= k < |s| ==> '0' <= s[k] <= '9'
  {
    if s == [] then 0
    else DigitsValue(s[..|s| - 1]) * 10 + (s[|s| - 1] as int - '0' as int)
  }

  /** The printed count reads back as the count. */
  lemma {:induction false} DecimalRoundTrip(n: nat)
    ensures DigitsValue(Decimal(n)) == n
  {
    if n >= 10 {
      DecimalRoundTrip(n / 10);
      var s := Decimal(n);
      assert s[..|s| - 1] == Decimal(n / 10);
    }
  }

  /** The branch drawn before an item. */
  function Marker(isLast: bool): string {
    if isLast then "└── " else "├── "
  }

  /** What is drawn below an item, in front of its children's lines. */
  function Indent(isLast: bool): string {
    if isLast then "    " else "│   "
  }

  /** An item's text: a link shows its target when it can be read. */
  function DisplayName(fs: FS, dir: string, item: Item): string {
    match item
    case Shown(e) =>
      var p := Join(dir, e.name);
      if e.isSymlink && p in fs.links then e.name + " -> " + fs.links[p] else e.name
    case Hidden(n) =>
      "... (" + Decimal(if n < 0 then 0 else n) + " files hidden) ..."
  }

  /** The line drawn for the item at index i of a listing of n items. */
  function ItemLine(fs: FS, dir: string, prefix: string, items: seq<Item>, i: nat): string
    requires i < |items|
  {
    prefix + Marker(i == |items| - 1) + DisplayName(fs, dir, items[i]) + "\n"
  }

  /** The entry that leads into a directory, if the item is one: the entry's
      own directory, or a link that Follow redirects to one. */
  predicate Descends(fs: FS, dir: string, item: Item) {
    item.Shown? && Follow(fs, dir, item.entry).isDir
  }

  /** The directory and the seen set the subtree below item i is drawn
      with, or None when it is not drawn (not a directory, or a canonical
      directory already expanded). */
  function Subtree(fs: FS, n: Node, items: seq<Item>, i: nat, seen: set<string>): Option<(Node, set<string>)>
    requires i < |items|
  {
    if !Descends(fs, n.phys, items[i]) then None
    else
      var c := Follow(fs, n.phys, items[i].entry);
      var node := Node(c.phys, ChildRel(n.rel, items[i].entry.name));
      if c.phys in fs.resolve then
        if fs.resolve[c.phys] in seen then None
        else Some((node, seen + {fs.resolve[c.phys]}))
      else Some((node, seen))
  }

  /** Rendering a directory at prefix, with the canonical directories in
      seen already expanded. */
  function RenderDir(fs: FS, cfg: Config, hard: seq<string>, n: Node, prefix: string, seen: set<string>): (r: Rendered)
    requires fs.Valid() && seen <= fs.Canon()
    ensures seen <= r.seen <= fs.Canon()
    ensures !r.ok <==> n.phys !in fs.listing
    ensures !r.ok ==> r == Rendered(false, "", seen)
    decreases |fs.Canon() - seen|, fs.Live(n.phys)
  {
    if n.phys !in fs.listing then Rendered(false, "", seen)
    else
      var items := Layout(cfg, hard, n.rel, fs.listing[n.phys]);
      var t := RenderItems(fs, cfg, hard, n, prefix, items, 0, seen);
      Rendered(true, t.text, t.seen)
  }

  /** Rendering items[i..] of the directory n. */
  function RenderItems(fs: FS, cfg: Config, hard: seq<string>, n: Node, prefix: string,
                       items: seq<Item>, i: nat, seen: set<string>): (r: Rendered)
    requires fs.Valid() && n.phys in fs.listing && seen <= fs.Canon() && i <= |items|
    ensures seen <= r.seen <= fs.Canon()
    decreases |fs.Canon() - seen|, fs.Live(n.phys), |items| - i
  {
    if i == |items| then Rendered(true, "", seen)
    else
      var line := ItemLine(fs, n.phys, prefix, items, i);
      var sub := SubRender(fs, cfg, hard, n, prefix, items, i, seen);
      UncoveredShrinks(fs.Canon(), seen, sub.seen);
      var rest := RenderItems(fs, cfg, hard, n, prefix, items, i + 1, sub.seen);
      Rendered(true, line + sub.text + rest.text, rest.seen)
  }

  /** The subtree drawn below item i, if any. */
  function SubRender(fs: FS, cfg: Config, hard: seq<string>, n: Node, prefix: string,
                     items: seq<Item>, i: nat, seen: set<string>): (r: Rendered)
    requires fs.Valid() && n.phys in fs.listing && seen <= fs.Canon() && i < |items|
    ensures seen <= r.seen <= fs.Canon()
    decreases |fs.Canon() - seen|, fs.Live(n.phys), |items| - i, 0
  {
    var next := Subtree(fs, n, items, i, seen);
    SubtreeProgress(fs, n, items, i, seen);
    if next.None? then Rendered(true, "", seen)
    else RenderDir(fs, cfg, hard, next.value.0, prefix + Indent(i == |items| - 1), next.value.1)
  }

  /** The recursion into a child directory makes progress: either one more
      canonical directory is covered, or the child cannot be listed. */
  lemma SubtreeProgress(fs: FS, n: Node, items: seq<Item>, i: nat, seen: set<string>)
    requires fs.Valid() && n.phys in fs.listing && seen <= fs.Canon() && i < |items|
    ensures var next := Subtree(fs, n, items, i, seen);
            next.Some? ==>
              seen <= next.value.1 <= fs.Canon() &&
              (|fs.Canon() - next.value.1| < |fs.Canon() - seen| ||
               (next.value.1 == seen && fs.Live(next.value.0.phys) < fs.Live(n.phys)))
  {
    var next := Subtree(fs, n, items, i, seen);
    if next.Some? {
      var c := Follow(fs, n.phys, items[i].entry);
      if c.phys in fs.resolve {
        assert fs.resolve[c.phys] in fs.Canon();
        UncoveredShrinksStrictly(fs.Canon(), seen, seen, fs.resolve[c.phys]);
      }
    }
  }

  /** The bytes of one step of RenderItems: the item's line, its subtree,
      then the remaining items drawn with the subtree's seen set. */
  lemma RenderItemsBytes(fs: FS, cfg: Config, hard: seq<string>, n: Node, prefix: string,
                         items: seq<Item>, i: nat, seen: set<string>)
    requires fs.Valid() && n.phys in fs.listing && seen <= fs.Canon() && i < |items|
    ensures var sub := SubRender(fs, cfg, hard, n, prefix, items, i, seen);
            var rest := RenderItems(fs, cfg, hard, n, prefix, items, i + 1, sub.seen);
            var r := RenderItems(fs, cfg, hard, n, prefix, items, i, seen);
            Encode(r.text) == (Encode(ItemLine(fs, n.phys, prefix, items, i)) + Encode(sub.text)) + Encode(rest.text) &&
            r.seen == rest.seen
  {
    var line := ItemLine(fs, n.phys, prefix, items, i);
    var sub := SubRender(fs, cfg, hard, n, prefix, items, i, seen);
    var rest := RenderItems(fs, cfg, hard, n, prefix, items, i + 1, sub.seen);
    EncodeConcat(line + sub.text, rest.text);
    EncodeConcat(line, sub.text);
  }

  /** One turn of writeTree's loop keeps the bytes written so far plus the
      rest still to draw equal to the whole directory's text. */
  lemma ItemStep(fs: FS, cfg: Config, hard: seq<string>, n: Node, prefix: string,
                 items: seq<Item>, i: nat, s0: set<string>,
                 start: seq<byte>, total: string, before: seq<byte>, now: seq<byte>)
    requires fs.Valid() && n.phys in fs.listing && s0 <= fs.Canon() && i < |items|
    requires start + Encode(total) == before + Encode(RenderItems(fs, cfg, hard, n, prefix, items, i, s0).text)
    requires now == before + Encode(ItemLine(fs, n.phys, prefix, items, i)) +
                    Encode(SubRender(fs, cfg, hard, n, prefix, items, i, s0).text)
    ensures var sub := SubRender(fs, cfg, hard, n, prefix, items, i, s0);
            var rest := RenderItems(fs, cfg, hard, n, prefix, items, i + 1, sub.seen);
            start + Encode(total) == now + Encode(rest.text) &&
            RenderItems(fs, cfg, hard, n, prefix, items, i, s0).seen == rest.seen
  {
    var sub := SubRender(fs, cfg, hard, n, prefix, items, i, s0);
    RenderItemsBytes(fs, cfg, hard, n, prefix, items, i, s0);
    var el := Encode(ItemLine(fs, n.phys, prefix, items, i));
    var es := Encode(sub.text);
    var er := Encode(RenderItems(fs, cfg, hard, n, prefix, items, i + 1, sub.seen).text);
    Associative(before, el, es);
    Associative(before, el + es, er);
  }

  /** The visibility pass of writeTree. */
  method FilterVisible(cfg: Config, hard: seq<string>, rel: string, entries: seq<Entry>)
    returns (visible: seq<Entry>)
    ensures visible == VisibleEntries(cfg, hard, rel, entries)
  {
    visible := [];
    var i := 0;
    while i < |entries|
      invariant 0 <= i <= |entries|
      invariant visible == VisibleEntries(cfg, hard, rel, entries[..i])
    {
      var entry := entries[i];
      var path := ChildRel(rel, entry.name);
      assert entries[..i + 1][..i] == entries[..i];
      if entry.name == cfg.outputFile {
      } else if IsJunk(cfg, entry.name) {
      } else if path != "" && CheckFilter(path, hard).0 {
      } else {
        visible := visible + [entry];
      }
      i := i + 1;
    }
    assert entries[..i] == entries;
  }

  /** The split of the visible entries into directories and the rest. */
  method SplitEntries(visible: seq<Entry>) returns (dirs: seq<Entry>, files: seq<Entry>)
    ensures dirs == DirsOf(visible) && files == FilesOf(visible)
  {
    dirs, files := [], [];
    var i := 0;
    while i < |visible|
      invariant 0 <= i <= |visible|
      invariant dirs == DirsOf(visible[..i]) && files == FilesOf(visible[..i])
    {
      assert visible[..i + 1][..i] == visible[..i];
      if visible[i].isDir {
        dirs := dirs + [visible[i]];
      } else {
        files := files + [visible[i]];
      }
      i := i + 1;
    }
    assert visible[..i] == visible;
  }

  /** The part of writeTree's loop below an item's line: a directory, or a
      link followed to one, is drawn one level deeper unless its canonical
      path was already expanded. */
  method WriteSubtree(w: Writer, fs: FS, cfg: Config, hard: seq<string>, n: Node, prefix: string,
                      items: seq<Item>, i: nat, seen: set<string>)
    returns (seen': set<string>)
    requires fs.Valid() && n.phys in fs.listing && seen <= fs.Canon() && i < |items|
    modifies w
    ensures var r := SubRender(fs, cfg, hard, n, prefix, items, i, seen);
            seen' == r.seen && w.bytes == old(w.bytes) + Encode(r.text)
    decreases |fs.Canon() - seen|, fs.Live(n.phys), |items| - i, 0
  {
    SubtreeProgress(fs, n, items, i, seen);
    seen' := seen;
    if items[i].Shown? {
      var entry := items[i].entry;
      var child := Follow(fs, n.phys, entry);
      if child.isDir {
        if child.phys in fs.resolve {
          var canon := fs.resolve[child.phys];
          if canon in seen {
            return;
          }
          seen' := seen + {canon};
        }
        var newPrefix := prefix + Indent(i == |items| - 1);
        var _, after := WriteTree(w, fs, cfg, hard, Node(child.phys, ChildRel(n.rel, entry.name)),
                                  newPrefix, seen');
        seen' := after;
      }
    }
  }

  /** One turn of writeTree's loop: the item's line, then what lies below it. */
  method WriteItem(w: Writer, fs: FS, cfg: Config, hard: seq<string>, n: Node, prefix: string,
                   items: seq<Item>, i: nat, seen: set<string>)
    returns (seen': set<string>)
    requires fs.Valid() && n.phys in fs.listing && seen <= fs.Canon() && i < |items|
    modifies w
    ensures var sub := SubRender(fs, cfg, hard, n, prefix, items, i, seen);
            seen' == sub.seen &&
            w.bytes == old(w.bytes) + Encode(ItemLine(fs, n.phys, prefix, items, i)) + Encode(sub.text)
    decreases |fs.Canon() - seen|, fs.Live(n.phys), |items| - i, 1
  {
    var isLast := i == |items| - 1;
    w.WriteString(prefix + Marker(isLast) + DisplayName(fs, n.phys, items[i]) + "\n");
    seen' := WriteSubtree(w, fs, cfg, hard, n, prefix, items, i, seen);
  }

  /** writeTree: draws the directory n at prefix and everything below it,
      threading the set of canonical directories already expanded. ok is
      false, and nothing is written, when n cannot be listed. */
  method WriteTree(w: Writer, fs: FS, cfg: Config, hard: seq<string>, n: Node, prefix: string,
                   seen: set<string>)
    returns (ok: bool, seen': set<string>)
    requires fs.Valid() && seen <= fs.Canon()
    modifies w
    ensures var r := RenderDir(fs, cfg, hard, n, prefix, seen);
            ok == r.ok && seen' == r.seen && w.bytes == old(w.bytes) + Encode(r.text)
    decreases |fs.Canon() - seen|, fs.Live(n.phys)
  {
    if n.phys !in fs.listing {
      return false, seen;
    }
    var entries := fs.listing[n.phys];
    var visible := FilterVisible(cfg, hard, n.rel, entries);
    var dirs, files := SplitEntries(visible);
    var items := ShowAll(dirs) + Fold(cfg.noFold, files);
    assert items == Layout(cfg, hard, n.rel, entries);
    ghost var total := RenderItems(fs, cfg, hard, n, prefix, items, 0, seen);
    ok, seen' := true, seen;
    var i := 0;
    while i < |items|
      invariant 0 <= i <= |items|
      invariant seen <= seen' <= fs.Canon()
      invariant RenderItems(fs, cfg, hard, n, prefix, items, i, seen').seen == total.seen
      invariant old(w.bytes) + Encode(total.text) ==
                w.bytes + Encode(RenderItems(fs, cfg, hard, n, prefix, items, i, seen').text)
    {
      ghost var before := w.bytes;
      ghost var s0 := seen';
      UncoveredShrinks(fs.Canon(), seen, s0);
      seen' := WriteItem(w, fs, cfg, hard, n, prefix, items, i, seen');
      ItemStep(fs, cfg, hard, n, prefix, items, i, s0, old(w.bytes), total.text, before, w.bytes);
      i := i + 1;
    }
    assert RenderDir(fs, cfg, hard, n, prefix, seen) == Rendered(true, total.text, total.seen);
  }
}
