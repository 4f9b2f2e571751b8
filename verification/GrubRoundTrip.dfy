/** After `set_default_kernel` succeeds, what `list_kernels` answers. */
module GrubRoundTrip {
  import opened Wrappers
  import opened Augeas
  import opened GrubKernels

  // ---- Setting the default leaves the titles alone

  /** `g` is `f` up to top-level nodes called `default`. */
  ghost predicate SameTitles(f: seq<Node>, g: seq<Node>) {
    && |f| <= |g|
    && (forall i :: 0 <= i < |f| ==> f[i] == g[i] || f[i].tag == g[i].tag == Default)
    && (forall i :: |f| <= i < |g| ==> g[i].tag == Default)
  }

  lemma {:induction false} SameCount(f: seq<Node>, g: seq<Node>, n: nat)
    requires SameTitles(f, g) && n <= |g|
    ensures CountUpTo(g, n, Title) == CountUpTo(f, if n <= |f| then n else |f|, Title)
    decreases n
  {
    if n > 0 {
      SameCount(f, g, n - 1);
    }
  }

  lemma {:induction false} SameMatches(f: seq<Node>, g: seq<Node>, n: nat, path: Path)
    requires SameTitles(f, g) && n <= |g| && path != [] && path[0].tag == Title
    ensures MatchUpTo(g, n, path) == MatchUpTo(f, if n <= |f| then n else |f|, path)
    decreases n
  {
    if n > 0 {
      SameMatches(f, g, n - 1, path);
      SameCount(f, g, n);
      assert n <= |f| ==> MatchAt(g, n - 1, path) == MatchAt(f, n - 1, path);
      assert n > |f| ==> MatchAt(g, n - 1, path) == [];
    }
  }

  lemma SamePath(f: seq<Node>, g: seq<Node>, pos: Position)
    requires SameTitles(f, g) && Labelled(f, pos, KERNELS)
    ensures Live(g, pos) && At(g, pos) == At(f, pos) && Expand(g, pos) == Expand(f, pos)
  {
    SameCount(f, g, pos[0] + 1);
    SameTitleCount(f, g);
  }

  /** The kernels, and the paths they are reported under, are the same as before. */
  lemma SameKernels(f: seq<Node>, g: seq<Node>)
    requires SameTitles(f, g)
    ensures Match(g, Plain(KERNELS)) == Match(f, Plain(KERNELS))
    ensures Paths(g, KERNELS) == Paths(f, KERNELS)
  {
    var found := Match(f, Plain(KERNELS));
    SameMatches(f, g, |g|, Plain(KERNELS));
    forall k | 0 <= k < |found| ensures Paths(g, KERNELS)[k] == Paths(f, KERNELS)[k] {
      PlainMatch(f, |f|, KERNELS, found[k]);
      SamePath(f, g, found[k]);
    }
  }

  // ---- Top-level nodes

  lemma {:induction false} TopMatches(f: seq<Node>, n: nat, tag: Tag)
    requires n <= |f|
    ensures |MatchUpTo(f, n, Plain([tag]))| == CountUpTo(f, n, tag)
    decreases n
  {
    if n > 0 {
      TopMatches(f, n - 1, tag);
    }
  }

  lemma {:induction false} NoTopMatch(f: seq<Node>, n: nat, tag: Tag)
    requires n <= |f| && MatchUpTo(f, n, Plain([tag])) == []
    ensures forall i :: 0 <= i < n ==> f[i].tag != tag
    decreases n
  {
    if n > 0 { NoTopMatch(f, n - 1, tag); }
  }

  lemma {:induction false} MatchPrefix(f: seq<Node>, g: seq<Node>, n: nat, tag: Tag)
    requires n <= |f| && n <= |g| && forall i :: 0 <= i < n ==> f[i].tag == g[i].tag
    ensures MatchUpTo(g, n, Plain([tag])) == MatchUpTo(f, n, Plain([tag]))
    decreases n
  {
    if n > 0 { MatchPrefix(f, g, n - 1, tag); }
  }

  ghost predicate DefaultIs(g: seq<Node>, value: string) {
    Match(g, Plain(DEFAULT)) != [] && Get(g, Plain(DEFAULT)) == Some(value)
  }

  lemma AppendDefault(f: seq<Node>, value: string)
    requires Match(f, Plain(DEFAULT)) == []
    ensures DefaultIs(f + [Node(Default, value, [])], value)
  {
    var g := f + [Node(Default, value, [])];
    MatchPrefix(f, g, |f|, Default);
    assert [Default] == DEFAULT;
    assert MatchAt(g, |f|, Plain(DEFAULT)) == [[|f|]];
    assert Match(g, Plain(DEFAULT)) == [[|f|]];
  }

  lemma ReplaceDefault(f: seq<Node>, value: string)
    requires |Match(f, Plain(DEFAULT))| == 1
    ensures var i := Match(f, Plain(DEFAULT))[0];
            Labelled(f, i, DEFAULT) && DefaultIs(f[i[0] := f[i[0]].(value := value)], value)
  {
    var pos := Match(f, Plain(DEFAULT))[0];
    PlainMatch(f, |f|, DEFAULT, pos);
    var g := f[pos[0] := f[pos[0]].(value := value)];
    assert [Default] == DEFAULT;
    MatchPrefix(f, g, |f|, Default);
  }

  /** `aug_set` then `aug_get` of a top-level node; only a second such node makes it fail. */
  lemma SetThenGet(f: seq<Node>, value: string)
    ensures SetTop(f, Default, value).Some? <==> Count(f, Default) <= 1
    ensures SetTop(f, Default, value).Some? ==>
              SameTitles(f, SetTop(f, Default, value).value) && DefaultIs(SetTop(f, Default, value).value, value)
  {
    TopMatches(f, |f|, Default);
    assert [Default] == DEFAULT;
    var found := Match(f, Plain(DEFAULT));
    if found == [] {
      AppendDefault(f, value);
    } else if |found| == 1 {
      ReplaceDefault(f, value);
    }
  }

  // ---- The default entry

  /** The entry of title `t` is selected by its rank, and is readable exactly when it is alone. */
  lemma EntryPathSelects(f: seq<Node>, pos: Position)
    requires Labelled(f, pos, KERNELS)
    ensures var kernels := f[pos[0]].children;
            Get(f, EntryPath(Rank(f, pos[0]))) ==
              if Count(kernels, Kernel) == 1 then Some(At(f, pos).value) else None
  {
    var t := pos[0];
    var path, below := EntryPath(Rank(f, t)), f[t].children;
    forall j | 0 <= j < |f| && Chosen(f, j, path[0]) ensures j == t {
      if j < t { RanksDiffer(f, j, t); } else if t < j { RanksDiffer(f, t, j); }
    }
    OnlyMatchAt(f, |f|, path, t);
    assert path[1..] == Plain([Kernel]) == [Selector(Kernel, None)];
    var rest := Match(below, Plain([Kernel]));
    assert Match(f, path) == Prefixed(t, rest);
    TopMatches(below, |below|, Kernel);
    if |rest| == 1 {
      assert KERNELS[1..] == [Kernel];
      assert Labelled(below, pos[1..], [Kernel]);
      PlainMatch(below, |below|, [Kernel], pos[1..]);
      assert pos == [t] + pos[1..];
      assert Match(f, path) == [pos];
    }
  }

  /** What `set_default_kernel` writes is read back as the entry found. */
  lemma DefaultIsEntry(prefix: string, f: seq<Node>, vmlinuz: string)
    requires SetDefault(prefix, f, vmlinuz).Ok?
    ensures var g := SetDefault(prefix, f, vmlinuz).value;
            var pos := FindEntry(f, vmlinuz[|prefix|..]).value;
            SameTitles(f, g) && DefaultPath(g) == Ok(Some(EntryPath(Rank(f, pos[0]))))
  {
    var pos := FindEntry(f, vmlinuz[|prefix|..]).value;
    var i := EntryIndex(Expand(f, pos));
    RankIsPositive(f, pos[0]);
    IndexIsRank(f, pos);
    SetThenGet(f, Decimal(i));
    DecimalParses(i);
  }

  /** Whether or not the path has an index, the entry's number is its rank less one. */
  lemma IndexIsRank(f: seq<Node>, pos: Position)
    requires Live(f, pos)
    ensures EntryIndex(Expand(f, pos)) == Rank(f, pos[0]) - 1
  {
    RankIsPositive(f, pos[0]);
  }

  /** Some entry boots `kernel`. */
  ghost predicate Boots(f: seq<Node>, kernel: string) {
    exists pos :: Labelled(f, pos, KERNELS) && At(f, pos).value == kernel
  }

  lemma EntryIsFound(f: seq<Node>, kernel: string)
    ensures FindEntry(f, kernel).Some? <==> Boots(f, kernel)
  {
    var entry := FindEntry(f, kernel);
    if entry.Some? { assert Labelled(f, entry.value, KERNELS); }
  }

  /** Success, in terms of the configuration. */
  lemma SetDefaultSucceeds(prefix: string, f: seq<Node>, vmlinuz: string)
    ensures SetDefault(prefix, f, vmlinuz).Ok? <==>
              prefix <= vmlinuz && Count(f, Default) <= 1 && Boots(f, vmlinuz[|prefix|..])
  {
    if prefix <= vmlinuz {
      var entry := FindEntry(f, vmlinuz[|prefix|..]);
      EntryIsFound(f, vmlinuz[|prefix|..]);
      if entry.Some? {
        RankIsPositive(f, entry.value[0]);
        SetThenGet(f, Decimal(EntryIndex(Expand(f, entry.value))));
      }
    }
  }

  // ---- The list as a whole

  ghost function NameAt(prefix: string, f: seq<Node>, p: Path): string {
    match Get(f, p)
    case None => ""
    case Some(value) => Name(prefix, value)
  }

  ghost function Names(prefix: string, f: seq<Node>, paths: seq<Path>): seq<string> {
    if paths == [] then [] else Names(prefix, f, paths[..|paths| - 1]) + [NameAt(prefix, f, paths[|paths| - 1])]
  }

  ghost predicate Readable(f: seq<Node>, paths: seq<Path>) {
    forall k :: 0 <= k < |paths| ==> Get(f, paths[k]).Some?
  }

  lemma {:induction false} ReadAllReads(prefix: string, f: seq<Node>, paths: seq<Path>)
    ensures ReadAll(prefix, f, paths) ==
              if Readable(f, paths) then Ok(Names(prefix, f, paths)) else Failure(AugeasError)
    decreases |paths|
  {
    if paths != [] {
      var front, last := paths[..|paths| - 1], paths[|paths| - 1];
      assert paths == front + [last];
      ReadAllReads(prefix, f, front);
      ReadAllAppend(prefix, f, front, last);
      NamesAppend(prefix, f, front, last);
      ReadableSplit(f, front, last);
    }
  }

  lemma ReadAllAppend(prefix: string, f: seq<Node>, front: seq<Path>, last: Path)
    ensures ReadAll(prefix, f, front + [last]) ==
              if ReadAll(prefix, f, front).Failure? then ReadAll(prefix, f, front)
              else if Get(f, last).None? then Failure(AugeasError)
              else Ok(ReadAll(prefix, f, front).value + [NameAt(prefix, f, last)])
  {
    assert (front + [last])[..|front|] == front;
  }

  lemma ReadableSplit(f: seq<Node>, front: seq<Path>, last: Path)
    ensures Readable(f, front + [last]) <==> Readable(f, front) && Get(f, last).Some?
  {
    assert (front + [last])[|front|] == last;
    if Readable(f, front + [last]) {
      forall k | 0 <= k < |front| ensures Get(f, front[k]).Some? { assert (front + [last])[k] == front[k]; }
    }
  }

  lemma {:induction false} NothingToRemove(paths: seq<Path>)
    requires Distinct(paths)
    ensures RemoveDuplicates(paths) == paths
    decreases |paths|
  {
    if paths != [] {
      NothingToRemove(paths[..|paths| - 1]);
      assert paths == paths[..|paths| - 1] + [paths[|paths| - 1]];
    }
  }

  lemma {:induction false} WithoutAbsent(paths: seq<Path>, p: Path)
    requires p !in paths
    ensures Without(paths, p) == paths
    decreases |paths|
  {
    if paths != [] {
      WithoutAbsent(paths[..|paths| - 1], p);
      assert paths == paths[..|paths| - 1] + [paths[|paths| - 1]];
    }
  }

  lemma {:induction false} WithoutIsPart(f: seq<Node>, paths: seq<Path>, p: Path)
    requires Readable(f, paths)
    ensures Readable(f, Without(paths, p))
    decreases |paths|
  {
    if paths != [] { WithoutIsPart(f, paths[..|paths| - 1], p); }
  }

  lemma NamesAppend(prefix: string, f: seq<Node>, front: seq<Path>, last: Path)
    ensures Names(prefix, f, front + [last]) == Names(prefix, f, front) + [NameAt(prefix, f, last)]
  {
    assert (front + [last])[..|front|] == front;
  }

  lemma {:induction false} NamesPutFirst(prefix: string, f: seq<Node>, p: Path, paths: seq<Path>)
    ensures Names(prefix, f, [p] + paths) == [NameAt(prefix, f, p)] + Names(prefix, f, paths)
    decreases |paths|
  {
    if paths == [] {
      NamesAppend(prefix, f, [], p);
      assert [p] + paths == [] + [p];
    } else {
      var front, last := paths[..|paths| - 1], paths[|paths| - 1];
      NamesPutFirst(prefix, f, p, front);
      NamesAppend(prefix, f, [p] + front, last);
      JoinFirst(p, front, last, paths);
      JoinFirst(NameAt(prefix, f, p), Names(prefix, f, front), NameAt(prefix, f, last), Names(prefix, f, paths));
    }
  }

  lemma JoinFirst<T>(x: T, front: seq<T>, last: T, all: seq<T>)
    requires all == front + [last]
    ensures [x] + all == ([x] + front) + [last]
  {
  }

  /** Taking one of several distinct paths to the front loses no name and adds none. */
  lemma {:induction false} PutFirstPermutes(prefix: string, f: seq<Node>, paths: seq<Path>, p: Path)
    requires Distinct(paths) && p in paths
    ensures multiset(Names(prefix, f, Without(paths, p))) + multiset{NameAt(prefix, f, p)}
            == multiset(Names(prefix, f, paths))
    decreases |paths|
  {
    var front, last := paths[..|paths| - 1], paths[|paths| - 1];
    assert paths == front + [last];
    if last == p {
      WithoutAbsent(front, p);
      assert Without(paths, p) == front;
    } else {
      PutFirstPermutes(prefix, f, front, p);
      assert Without(paths, p) == Without(front, p) + [last];
      assert Without(paths, p)[..|Without(paths, p)| - 1] == Without(front, p);
    }
  }

  /** The default entry is one of the paths found, unless there is just one title. */
  lemma EntryAmongPaths(f: seq<Node>, pos: Position)
    requires Labelled(f, pos, KERNELS) && Count(f[pos[0]].children, Kernel) == 1
    ensures EntryPath(Rank(f, pos[0])) in Paths(f, KERNELS) <==> Count(f, Title) > 1
  {
    var p, paths, found := EntryPath(Rank(f, pos[0])), Paths(f, KERNELS), Match(f, Plain(KERNELS));
    if Count(f, Title) > 1 {
      PlainMatch(f, |f|, KERNELS, pos);
      var k :| 0 <= k < |found| && found[k] == pos;
      assert paths[k] == Expand(f, pos) == [Named(f, pos[0])] + [Named(f[pos[0]].children, pos[1])];
      assert p == paths[k];
    } else {
      forall k | 0 <= k < |paths| ensures paths[k] != p {
        PlainMatch(f, |f|, KERNELS, found[k]);
        assert paths[k][0] == Named(f, found[k][0]);
      }
    }
  }

  /** With a default, the list is that entry's name and then the others', or it cannot be read. */
  lemma ListReads(prefix: string, g: seq<Node>, p: Path)
    requires DefaultPath(g) == Ok(Some(p))
    ensures ListKernels(prefix, g) ==
              if Get(g, p).None? then Failure(AugeasError)
              else Ok([NameAt(prefix, g, p)] + Names(prefix, g, Without(Paths(g, KERNELS), p)))
  {
    var paths := Paths(g, KERNELS);
    PathsReadTheirNodes(g, KERNELS);
    NothingToRemove(paths);
    var rest := Without(paths, p);
    WithoutIsPart(g, paths, p);
    ReadAllReads(prefix, g, [p] + rest);
    NamesPutFirst(prefix, g, p, rest);
    ReadableFirst(g, p, rest);
  }

  lemma ReadableFirst(f: seq<Node>, p: Path, rest: seq<Path>)
    requires Readable(f, rest)
    ensures Readable(f, [p] + rest) <==> Get(f, p).Some?
  {
    assert ([p] + rest)[0] == p;
  }

  /** Nothing is lost by reading the default first; a single title is read twice. */
  lemma ListCounts(prefix: string, g: seq<Node>, pos: Position)
    requires Labelled(g, pos, KERNELS) && Count(g[pos[0]].children, Kernel) == 1
    ensures var p, paths := EntryPath(Rank(g, pos[0])), Paths(g, KERNELS);
            multiset(Names(prefix, g, Without(paths, p))) + multiset{NameAt(prefix, g, p)} ==
            multiset(Names(prefix, g, paths)) + Extra(g, NameAt(prefix, g, p))
  {
    var p, paths := EntryPath(Rank(g, pos[0])), Paths(g, KERNELS);
    EntryAmongPaths(g, pos);
    if Count(g, Title) > 1 {
      PathsReadTheirNodes(g, KERNELS);
      PutFirstPermutes(prefix, g, paths, p);
    } else {
      WithoutAbsent(paths, p);
    }
  }

  /** A name that a single title makes `list_kernels` repeat. */
  ghost function Extra(f: seq<Node>, name: string): multiset<string> {
    if Count(f, Title) > 1 then multiset{} else multiset{name}
  }

  ghost predicate Offers(names: seq<string>, first: string, all: seq<string>, extra: multiset<string>) {
    names != [] && names[0] == first && multiset(names) == multiset(all) + extra
  }

  /** What `list_kernels` answers when the default is the entry of `pos`. */
  lemma ListWithDefault(prefix: string, g: seq<Node>, pos: Position)
    requires Labelled(g, pos, KERNELS) && DefaultPath(g) == Ok(Some(EntryPath(Rank(g, pos[0]))))
    ensures var listed, first := ListKernels(prefix, g), Name(prefix, At(g, pos).value);
            if Count(g[pos[0]].children, Kernel) == 1 then
              listed.Ok? && Offers(listed.value, first, Names(prefix, g, Paths(g, KERNELS)), Extra(g, first))
            else
              listed == Failure(AugeasError)
  {
    var p := EntryPath(Rank(g, pos[0]));
    EntryPathSelects(g, pos);
    ListReads(prefix, g, p);
    if Count(g[pos[0]].children, Kernel) == 1 { ListCounts(prefix, g, pos); }
  }

  /**
   * The round trip.  The kernel just made the default comes first exactly when its entry has no
   * second kernel line and its name no drive prefix.  Then every kernel is still offered as often as
   * before, once more if there is only one title.
   */
  lemma DefaultRoundTrip(prefix: string, f: seq<Node>, vmlinuz: string)
    requires SetDefault(prefix, f, vmlinuz).Ok?
    ensures var kernel := vmlinuz[|prefix|..];
            var listed := ListKernels(prefix, SetDefault(prefix, f, vmlinuz).value);
            var all := Names(prefix, f, Paths(f, KERNELS));
            && (listed.Ok? && listed.value != [] && listed.value[0] == vmlinuz <==>
                SoleKernel(f, kernel) && !HasDrivePrefix(kernel))
            && (listed.Ok? ==> Offers(listed.value, Name(prefix, kernel), all, Extra(f, Name(prefix, kernel))))
  {
    var kernel := vmlinuz[|prefix|..];
    DefaultListed(prefix, f, vmlinuz);
    NameIsVmlinuz(prefix, vmlinuz);
  }

  /** The entry found for `kernel` has this kernel line only. */
  ghost predicate SoleKernel(f: seq<Node>, kernel: string) {
    var entry := FindEntry(f, kernel);
    entry.Some? && Count(f[entry.value[0]].children, Kernel) == 1
  }

  lemma NameIsVmlinuz(prefix: string, vmlinuz: string)
    requires prefix <= vmlinuz
    ensures Name(prefix, vmlinuz[|prefix|..]) == vmlinuz <==> !HasDrivePrefix(vmlinuz[|prefix|..])
  {
    var kernel := vmlinuz[|prefix|..];
    RemoveDriveKeeps(kernel);
    assert vmlinuz == prefix + kernel;
    assert Name(prefix, kernel)[|prefix|..] == RemoveDrive(kernel);
  }

  lemma DefaultListed(prefix: string, f: seq<Node>, vmlinuz: string)
    requires SetDefault(prefix, f, vmlinuz).Ok?
    ensures var kernel := vmlinuz[|prefix|..];
            var listed := ListKernels(prefix, SetDefault(prefix, f, vmlinuz).value);
            var name, all := Name(prefix, kernel), Names(prefix, f, Paths(f, KERNELS));
            if SoleKernel(f, kernel) then listed.Ok? && Offers(listed.value, name, all, Extra(f, name))
            else listed == Failure(AugeasError)
  {
    var g := SetDefault(prefix, f, vmlinuz).value;
    var pos := FindEntry(f, vmlinuz[|prefix|..]).value;
    DefaultIsEntry(prefix, f, vmlinuz);
    SameRank(f, g, pos);
    ListWithDefault(prefix, g, pos);
    SameNames(prefix, f, g);
  }

  lemma SameTitleCount(f: seq<Node>, g: seq<Node>)
    requires SameTitles(f, g)
    ensures Count(g, Title) == Count(f, Title)
  {
    SameCount(f, g, |g|);
  }

  lemma SameRank(f: seq<Node>, g: seq<Node>, pos: Position)
    requires SameTitles(f, g) && Labelled(f, pos, KERNELS)
    ensures Labelled(g, pos, KERNELS) && At(g, pos) == At(f, pos) && g[pos[0]] == f[pos[0]]
    ensures Rank(g, pos[0]) == Rank(f, pos[0]) && Count(g, Title) == Count(f, Title)
  {
    SamePath(f, g, pos);
    SameCount(f, g, pos[0] + 1);
    SameTitleCount(f, g);
  }

  lemma SameNames(prefix: string, f: seq<Node>, g: seq<Node>)
    requires SameTitles(f, g)
    ensures Names(prefix, g, Paths(g, KERNELS)) == Names(prefix, f, Paths(f, KERNELS))
  {
    SameKernels(f, g);
    PathsReadTheirNodes(f, KERNELS);
    PathsReadTheirNodes(g, KERNELS);
    var found, paths := Match(f, Plain(KERNELS)), Paths(f, KERNELS);
    forall k | 0 <= k < |paths| ensures Get(g, paths[k]) == Get(f, paths[k]) {
      PlainMatch(f, |f|, KERNELS, found[k]);
      SamePath(f, g, found[k]);
    }
    NamesAgree(prefix, f, g, paths);
  }

  lemma {:induction false} NamesAgree(prefix: string, f: seq<Node>, g: seq<Node>, paths: seq<Path>)
    requires forall k :: 0 <= k < |paths| ==> Get(g, paths[k]) == Get(f, paths[k])
    ensures Names(prefix, g, paths) == Names(prefix, f, paths)
    decreases |paths|
  {
    if paths != [] { NamesAgree(prefix, f, g, paths[..|paths| - 1]); }
  }

  const TWO_KERNELS := [Node(Title, "Linux", [Node(Kernel, "/a", []), Node(Kernel, "/b", [])])]

  /** Two kernel lines in one entry: the default can be set, and then the list cannot be read. */
  lemma SecondKernelBreaksList()
    ensures SetDefault("", TWO_KERNELS, "/a").Ok?
    ensures ListKernels("", SetDefault("", TWO_KERNELS, "/a").value) == Failure(AugeasError)
  {
    TwoKernels();
    assert "/a"[|""|..] == "/a";
    SetDefaultSucceeds("", TWO_KERNELS, "/a");
    DefaultListed("", TWO_KERNELS, "/a");
  }

  lemma TwoKernels()
    ensures Count(TWO_KERNELS, Default) == 0 && Boots(TWO_KERNELS, "/a") && !SoleKernel(TWO_KERNELS, "/a")
  {
    var f := TWO_KERNELS;
    var kernels := f[0].children;
    assert Count(kernels, Kernel) == CountUpTo(kernels, 1, Kernel) + 1 == 2;
    assert [0, 0][1..] == [0] && KERNELS[1..] == [Kernel];
    assert Labelled(kernels, [0], [Kernel]);
    assert Labelled(f, [0, 0], KERNELS) && At(f, [0, 0]).value == "/a";
  }

  // ---- The other way round: from the list to the default

  predicate IsEntryPath(p: Path) {
    |p| == 2 && p[0].tag == Title && p[1].tag == Kernel
  }

  lemma ReadIsBooted(f: seq<Node>, p: Path)
    requires IsEntryPath(p) && Get(f, p).Some?
    ensures Boots(f, Get(f, p).value)
  {
    var pos := Match(f, p)[0];
    MatchIsLabelled(f, |f|, p, KERNELS, pos);
  }

  lemma PathIsEntry(f: seq<Node>, p: Path)
    requires p in Paths(f, KERNELS)
    ensures IsEntryPath(p)
  {
    var k :| 0 <= k < |Paths(f, KERNELS)| && Paths(f, KERNELS)[k] == p;
    var pos := Match(f, Plain(KERNELS))[k];
    PlainMatch(f, |f|, KERNELS, pos);
    assert KERNELS[1..] == [Kernel];
    assert p == Expand(f, pos) == [Named(f, pos[0])] + [Named(f[pos[0]].children, pos[1])];
  }

  lemma {:induction false} WithoutIsSubset(paths: seq<Path>, p: Path, q: Path)
    requires q in Without(paths, p)
    ensures q in paths
    decreases |paths|
  {
    if q != paths[|paths| - 1] { WithoutIsSubset(paths[..|paths| - 1], p, q); }
  }

  lemma {:induction false} NamesIndexed(prefix: string, f: seq<Node>, paths: seq<Path>, i: nat)
    requires i < |paths|
    ensures |Names(prefix, f, paths)| == |paths| && Names(prefix, f, paths)[i] == NameAt(prefix, f, paths[i])
    decreases |paths|
  {
    if |paths| > 1 {
      NamesIndexed(prefix, f, paths[..|paths| - 1], if i < |paths| - 1 then i else 0);
    } else {
      assert paths[..0] == [];
    }
  }

  lemma OrderedAreEntries(f: seq<Node>)
    requires DefaultPath(f).Ok?
    ensures forall p :: p in Ordered(Paths(f, KERNELS), DefaultPath(f).value) ==> IsEntryPath(p)
  {
    var all, default := Paths(f, KERNELS), DefaultPath(f).value;
    forall p | p in Ordered(all, default) ensures IsEntryPath(p) {
      if default.Some? && p != default.value { WithoutIsSubset(all, default.value, p); }
      if p in all { PathIsEntry(f, p); }
    }
  }

  lemma OneDefaultAtMost(f: seq<Node>)
    requires DefaultPath(f).Ok?
    ensures Count(f, Default) <= 1
  {
    TopMatches(f, |f|, Default);
    assert [Default] == DEFAULT;
  }

  /** The order in which `list_kernels` reads, when it succeeds. */
  lemma ListedPaths(prefix: string, f: seq<Node>) returns (paths: seq<Path>)
    requires ListKernels(prefix, f).Ok?
    ensures Readable(f, paths) && ListKernels(prefix, f).value == Names(prefix, f, paths)
    ensures forall p :: p in paths ==> IsEntryPath(p)
    ensures Count(f, Default) <= 1
  {
    PathsReadTheirNodes(f, KERNELS);
    NothingToRemove(Paths(f, KERNELS));
    paths := Ordered(Paths(f, KERNELS), DefaultPath(f).value);
    ReadAllReads(prefix, f, paths);
    OrderedAreEntries(f);
    OneDefaultAtMost(f);
  }

  /** `name` is how `list_kernels` offers a kernel line `line`. */
  ghost predicate OfferedAs(prefix: string, f: seq<Node>, line: string, name: string) {
    Boots(f, line) && name == Name(prefix, line)
  }

  /**
   * Every kernel that is listed comes from a kernel line, and can be made the default exactly when
   * some line consists of its name without a drive prefix: always when its own line has none.
   */
  lemma ListedCanBeDefault(prefix: string, f: seq<Node>, i: nat) returns (line: string)
    requires ListKernels(prefix, f).Ok? && i < |ListKernels(prefix, f).value|
    ensures var name := ListKernels(prefix, f).value[i];
            && OfferedAs(prefix, f, line, name)
            && (SetDefault(prefix, f, name).Ok? <==> Boots(f, RemoveDrive(line)))
            && (!HasDrivePrefix(line) ==> SetDefault(prefix, f, name).Ok?)
  {
    var paths := ListedPaths(prefix, f);
    if paths != [] { NamesIndexed(prefix, f, paths, if i < |paths| then i else 0); }
    line := Get(f, paths[i]).value;
    ReadIsBooted(f, paths[i]);
    var name := Name(prefix, line);
    SetDefaultSucceeds(prefix, f, name);
    assert name[|prefix|..] == RemoveDrive(line);
    RemoveDriveKeeps(line);
  }

  ghost function OneKernel(line: string): seq<Node> {
    [Node(Title, "Linux", [Node(Kernel, line, [])])]
  }

  lemma OneKernelBoots(line: string, kernel: string)
    ensures Boots(OneKernel(line), kernel) <==> kernel == line
  {
    var f := OneKernel(line);
    assert [0, 0][1..] == [0] && KERNELS[1..] == [Kernel];
    assert Labelled(f[0].children, [0], [Kernel]);
    assert Labelled(f, [0, 0], KERNELS) && At(f, [0, 0]).value == line;
    forall pos | Labelled(f, pos, KERNELS) ensures At(f, pos).value == line {
      assert pos[0] == 0 && pos[1..][0] == 0;
    }
  }

  /** A kernel whose only line has a drive prefix is listed under a name that cannot be set. */
  lemma DrivePrefixIsNotFound(prefix: string, line: string)
    requires HasDrivePrefix(line)
    ensures ListKernels(prefix, OneKernel(line)) == Ok([Name(prefix, line)])
    ensures SetDefault(prefix, OneKernel(line), Name(prefix, line)) == Failure(NoEntry)
  {
    var f := OneKernel(line);
    OneKernelListed(prefix, line);
    assert Name(prefix, line)[|prefix|..] == RemoveDrive(line);
    RemoveDriveKeeps(line);
    OneKernelBoots(line, RemoveDrive(line));
    NotFoundFails(prefix, f, Name(prefix, line));
  }

  lemma NotFoundFails(prefix: string, f: seq<Node>, vmlinuz: string)
    requires prefix <= vmlinuz && !Boots(f, vmlinuz[|prefix|..])
    ensures SetDefault(prefix, f, vmlinuz) == Failure(NoEntry)
  {
    EntryIsFound(f, vmlinuz[|prefix|..]);
  }

  lemma OneKernelFound(line: string)
    ensures Match(OneKernel(line), Plain(KERNELS)) == [[0, 0]] && Match(OneKernel(line), Plain(DEFAULT)) == []
  {
    var f := OneKernel(line);
    var found, none := Match(f, Plain(KERNELS)), Match(f, Plain(DEFAULT));
    OneKernelBoots(line, line);
    assert Labelled(f, [0, 0], KERNELS) by { assert [0, 0][1..] == [0] && KERNELS[1..] == [Kernel]; }
    PlainMatch(f, |f|, KERNELS, [0, 0]);
    MatchesDistinct(f, |f|, KERNELS);
    forall k | 0 <= k < |found| ensures found[k] == [0, 0] {
      PlainMatch(f, |f|, KERNELS, found[k]);
      assert found[k][0] == 0 && found[k][1..][0] == 0;
    }
    OnlyOne(found, [0, 0]);
    TopMatches(f, |f|, Default);
    assert [Default] == DEFAULT && CountUpTo(f, 0, Default) == 0;
  }

  lemma OnlyOne(found: seq<Position>, pos: Position)
    requires Distinct(found) && pos in found && forall k :: 0 <= k < |found| ==> found[k] == pos
    ensures found == [pos]
  {
    var k :| 0 <= k < |found| && found[k] == pos;
    assert forall i :: 0 <= i < |found| && found[i] == pos ==> i == k;
    assert found[0] == pos && found[|found| - 1] == pos;
  }

  lemma OneKernelListed(prefix: string, line: string)
    ensures ListKernels(prefix, OneKernel(line)) == Ok([Name(prefix, line)])
  {
    var f := OneKernel(line);
    OneKernelFound(line);
    var paths := Paths(f, KERNELS);
    PathsReadTheirNodes(f, KERNELS);
    NothingToRemove(paths);
    ReadAllReads(prefix, f, paths);
    NamesIndexed(prefix, f, paths, 0);
    assert [0, 0][1..] == [0];
    assert Get(f, paths[0]) == Some(line);
    assert DefaultPath(f) == Ok(None);
    assert Names(prefix, f, paths) == [Name(prefix, line)];
  }

  /** As on SUSE: a kernel line of the form `(hd<drive>)<path>`. */
  lemma DriveLineIsNotFound(prefix: string, drive: string, path: string)
    requires '\n' !in drive && '\n' !in path
    ensures var line := "(hd" + drive + ")" + path;
            && ListKernels(prefix, OneKernel(line)) == Ok([Name(prefix, line)])
            && SetDefault(prefix, OneKernel(line), Name(prefix, line)) == Failure(NoEntry)
  {
    var line := "(hd" + drive + ")" + path;
    assert line[3 + |drive|] == ')';
    assert '\n' !in line;
    assert LineEnd(line) == |line|;
    DrivePrefixIsNotFound(prefix, line);
  }

  // ---- When the list can be read at all

  /** Title number `n`, counted from 1, is there and has exactly one kernel line. */
  ghost predicate TitleBoots(f: seq<Node>, n: int) {
    exists t :: 0 <= t < |f| && f[t].tag == Title && Rank(f, t) == n && Count(f[t].children, Kernel) == 1
  }

  lemma ReadableIsTitle(f: seq<Node>, n: int)
    ensures Get(f, EntryPath(n)).Some? <==> TitleBoots(f, n)
  {
    if Get(f, EntryPath(n)).Some? {
      var pos := Match(f, EntryPath(n))[0];
      MatchIsLabelled(f, |f|, EntryPath(n), KERNELS, pos);
      MatchHasRank(f, |f|, EntryPath(n), pos);
      EntryPathSelects(f, pos);
    } else if TitleBoots(f, n) {
      var t :| 0 <= t < |f| && f[t].tag == Title && Rank(f, t) == n && Count(f[t].children, Kernel) == 1;
      var below := f[t].children;
      TopMatches(below, |below|, Kernel);
      var rest := Match(below, Plain([Kernel]))[0];
      PlainMatch(below, |below|, [Kernel], rest);
      assert ([t] + rest)[1..] == rest && KERNELS[1..] == [Kernel];
      EntryPathSelects(f, [t] + rest);
    }
  }

  lemma {:induction false} MatchHasRank(f: seq<Node>, n: nat, path: Path, pos: Position)
    requires n <= |f| && path != [] && pos in MatchUpTo(f, n, path)
    ensures pos != [] && pos[0] < n && Chosen(f, pos[0], path[0])
    decreases n
  {
    if pos in MatchUpTo(f, n - 1, path) { MatchHasRank(f, n - 1, path, pos); }
  }

  /** The default, if there is one, is the number of a title that can be booted. */
  ghost predicate DefaultBoots(f: seq<Node>) {
    || Count(f, Default) == 0
    || (Count(f, Default) == 1 && Get(f, Plain(DEFAULT)).Some?
        && var number := IntOfString(Get(f, Plain(DEFAULT)).value);
           number.Some? && TitleBoots(f, number.value + 1))
  }

  /**
   * `list_kernels` succeeds exactly when there is no default, or a single one that numbers a title
   * with exactly one kernel line.  A default past the last title, or at a title that boots something
   * else, makes the whole list fail.
   */
  lemma ListSucceedsExactlyWhen(prefix: string, f: seq<Node>)
    ensures ListKernels(prefix, f).Ok? <==> DefaultBoots(f)
  {
    TopMatches(f, |f|, Default);
    assert [Default] == DEFAULT;
    PathsReadTheirNodes(f, KERNELS);
    NothingToRemove(Paths(f, KERNELS));
    if DefaultPath(f).Ok? {
      if DefaultPath(f).value.Some? {
        ListReads(prefix, f, DefaultPath(f).value.value);
        ReadableIsTitle(f, IntOfString(Get(f, Plain(DEFAULT)).value).value + 1);
      } else {
        ReadAllReads(prefix, f, Paths(f, KERNELS));
      }
    }
  }

  /** One title with a kernel, and the default at a second that is not there. */
  const DEFAULT_PAST_END := [Node(Default, "1", []), Node(Title, "Linux", [Node(Kernel, "/a", [])])]

  lemma DefaultPastEndBreaksList(prefix: string)
    ensures !ListKernels(prefix, DEFAULT_PAST_END).Ok?
  {
    var f := DEFAULT_PAST_END;
    ListSucceedsExactlyWhen(prefix, f);
    assert CountUpTo(f, 1, Default) == CountUpTo(f, 0, Default) + 1 && Count(f, Default) == 1;
    assert Labelled(f, [0], DEFAULT);
    PlainMatch(f, |f|, DEFAULT, [0]);
    TopMatches(f, |f|, Default);
    assert [Default] == DEFAULT;
    assert Match(f, Plain(DEFAULT)) == [[0]];
    assert Get(f, Plain(DEFAULT)) == Some("1");
    assert IntOfString("1") == Some(1);
    forall t | 0 <= t < |f| && f[t].tag == Title ensures Rank(f, t) == 1 {
      assert CountUpTo(f, 1, Title) == CountUpTo(f, 0, Title);
    }
  }

  // ---- The list, name by name

  /** How kernel lines are offered. */
  ghost function NamesOf(prefix: string, lines: seq<string>): (names: seq<string>)
    ensures |names| == |lines| && forall i :: 0 <= i < |lines| ==> names[i] == prefix + RemoveDrive(lines[i])
  {
    seq(|lines|, i requires 0 <= i < |lines| => prefix + RemoveDrive(lines[i]))
  }

  lemma NamesArePointwise(prefix: string, f: seq<Node>, paths: seq<Path>, lines: seq<string>)
    requires |lines| == |paths| && forall i :: 0 <= i < |paths| ==> Get(f, paths[i]) == Some(lines[i])
    ensures Names(prefix, f, paths) == NamesOf(prefix, lines)
  {
    if paths == [] {
      assert lines == [];
    } else {
      forall i | 0 <= i < |paths|
        ensures |Names(prefix, f, paths)| == |paths| && Names(prefix, f, paths)[i] == NamesOf(prefix, lines)[i]
      {
        NamesIndexed(prefix, f, paths, i);
      }
    }
  }

  /** Without a default, `list_kernels` offers every kernel line, in the order of the file. */
  lemma ListWithoutDefault(prefix: string, f: seq<Node>)
    requires Count(f, Default) == 0
    ensures ListKernels(prefix, f) == Ok(NamesOf(prefix, MatchedValues(f, |f|, KERNELS)))
  {
    var paths := Paths(f, KERNELS);
    TopMatches(f, |f|, Default);
    assert [Default] == DEFAULT;
    PathsReadTheirNodes(f, KERNELS);
    NothingToRemove(paths);
    ReadAllReads(prefix, f, paths);
    NamesArePointwise(prefix, f, paths, MatchedValues(f, |f|, KERNELS));
  }

  lemma {:induction false} WithoutAt(paths: seq<Path>, k: nat)
    requires Distinct(paths) && k < |paths|
    ensures Without(paths, paths[k]) == paths[..k] + paths[k + 1..]
    decreases |paths|
  {
    var front, last := paths[..|paths| - 1], paths[|paths| - 1];
    assert paths == front + [last];
    if k == |front| {
      WithoutAbsent(front, last);
    } else {
      WithoutAt(front, k);
      assert front[..k] + front[k + 1..] + [last] == paths[..k] + paths[k + 1..];
    }
  }

  lemma DropLine(f: seq<Node>, paths: seq<Path>, lines: seq<string>, k: nat)
    requires |lines| == |paths| && k < |paths| && forall i :: 0 <= i < |paths| ==> Get(f, paths[i]) == Some(lines[i])
    ensures var p, l := paths[..k] + paths[k + 1..], lines[..k] + lines[k + 1..];
            |l| == |p| && forall i :: 0 <= i < |p| ==> Get(f, p[i]) == Some(l[i])
  {
  }

  /**
   * With several titles and a default that can be booted, `list_kernels` offers its kernel first and
   * then all others in the order of the file.
   */
  lemma ListInOrder(prefix: string, f: seq<Node>, k: nat)
    requires k < |Match(f, Plain(KERNELS))| && Count(f, Title) > 1
    requires var pos := Match(f, Plain(KERNELS))[k];
             && Labelled(f, pos, KERNELS) && Count(f[pos[0]].children, Kernel) == 1
             && DefaultPath(f) == Ok(Some(EntryPath(Rank(f, pos[0]))))
    ensures var lines := MatchedValues(f, |f|, KERNELS);
            ListKernels(prefix, f) == Ok(NamesOf(prefix, [lines[k]] + (lines[..k] + lines[k + 1..])))
  {
    var lines, pos := MatchedValues(f, |f|, KERNELS), Match(f, Plain(KERNELS))[k];
    EntryIsPath(f, pos);
    ListReads(prefix, f, EntryPath(Rank(f, pos[0])));
    OthersInOrder(prefix, f, k);
    NamesOfFirst(prefix, lines[k], lines[..k] + lines[k + 1..]);
  }

  lemma NamesOfFirst(prefix: string, line: string, rest: seq<string>)
    ensures NamesOf(prefix, [line] + rest) == [Name(prefix, line)] + NamesOf(prefix, rest)
  {
  }

  lemma OthersInOrder(prefix: string, f: seq<Node>, k: nat)
    requires k < |Paths(f, KERNELS)|
    ensures var paths, lines := Paths(f, KERNELS), MatchedValues(f, |f|, KERNELS);
            && |lines| == |paths| && Get(f, paths[k]) == Some(lines[k])
            && Names(prefix, f, Without(paths, paths[k])) == NamesOf(prefix, lines[..k] + lines[k + 1..])
  {
    var paths, lines := Paths(f, KERNELS), MatchedValues(f, |f|, KERNELS);
    PathsReadTheirNodes(f, KERNELS);
    WithoutAt(paths, k);
    DropLine(f, paths, lines, k);
    NamesArePointwise(prefix, f, paths[..k] + paths[k + 1..], lines[..k] + lines[k + 1..]);
  }

  /** With several titles the default entry is reported under the very path that is read for it. */
  lemma EntryIsPath(f: seq<Node>, pos: Position)
    requires Labelled(f, pos, KERNELS) && Count(f[pos[0]].children, Kernel) == 1 && Count(f, Title) > 1
    ensures Expand(f, pos) == EntryPath(Rank(f, pos[0]))
  {
    assert KERNELS[1..] == [Kernel];
    assert Expand(f, pos) == [Named(f, pos[0])] + [Named(f[pos[0]].children, pos[1])];
  }
}
