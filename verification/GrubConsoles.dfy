/** What `remove_console` of the grub1 bootloader leaves of the configuration tree. */
module GrubConsoles {
  import opened Augeas

  const CONSOLES: seq<Tag> := [Title, Kernel, Console]

  predicate IsWordChar(c: char) {
    'a' <= c <= 'z' || 'A' <= c <= 'Z' || '0' <= c <= '9' || c == '_'
  }

  predicate XenConsoleAt(s: string, i: nat) {
    && i + 4 <= |s| && (s[i..i + 4] == "xvc0" || s[i..i + 4] == "hvc0")
    && (i == 0 || !IsWordChar(s[i - 1])) && (i + 4 == |s| || !IsWordChar(s[i + 4]))
  }

  /** The regular expression `\b([xh]vc0)\b` matches somewhere. */
  predicate NamesXenConsole(s: string) {
    exists i :: 0 <= i < |s| && XenConsoleAt(s, i)
  }

  /** A console name made of word characters only matches exactly when it is one of the two. */
  lemma WholeNamesMatch(s: string)
    requires forall i :: 0 <= i < |s| ==> IsWordChar(s[i])
    ensures NamesXenConsole(s) <==> s == "xvc0" || s == "hvc0"
  {
    if i :| 0 <= i < |s| && XenConsoleAt(s, i) {
      assert i == 0 && s == s[0..4];
    }
    if s == "xvc0" || s == "hvc0" {
      assert s[0..4] == s;
      assert XenConsoleAt(s, 0);
    }
  }

  /** Within a longer value it matches wherever it stands as a word. */
  lemma WordsMatch(before: string, name: string, after: string)
    requires name == "xvc0" || name == "hvc0"
    requires (before == [] || !IsWordChar(before[|before| - 1])) && (after == [] || !IsWordChar(after[0]))
    ensures NamesXenConsole(before + name + after)
  {
    var s := before + name + after;
    assert s[|before|..|before| + 4] == name;
    assert XenConsoleAt(s, |before|);
  }

  /** The tree without the `labels` nodes that name a Xen console; all else in place. */
  function Prune(f: seq<Node>, labels: seq<Tag>): seq<Node>
    requires labels != []
    decreases |labels|, |f|, 1
  {
    if f == [] then [] else Prune(f[..|f| - 1], labels) + PruneNode(f[|f| - 1], labels)
  }

  function PruneNode(nd: Node, labels: seq<Tag>): seq<Node>
    requires labels != []
    decreases |labels|, 0, 0
  {
    if nd.tag != labels[0] then [nd]
    else if |labels| > 1 then [nd.(children := Prune(nd.children, labels[1..]))]
    else if NamesXenConsole(nd.value) then []
    else [nd]
  }

  /** The number of nodes of a tree. */
  function Size(f: seq<Node>): nat {
    if f == [] then 0 else Size(f[..|f| - 1]) + 1 + Size(f[|f| - 1].children)
  }

  lemma {:induction false} SizeOfJoin(a: seq<Node>, b: seq<Node>)
    ensures Size(a + b) == Size(a) + Size(b)
    decreases |b|
  {
    if b == [] {
      assert a + b == a;
    } else {
      assert (a + b)[..|a + b| - 1] == a + b[..|b| - 1];
      SizeOfJoin(a, b[..|b| - 1]);
    }
  }

  lemma {:induction false} PruneOfJoin(a: seq<Node>, b: seq<Node>, labels: seq<Tag>)
    requires labels != []
    ensures Prune(a + b, labels) == Prune(a, labels) + Prune(b, labels)
    decreases |b|
  {
    if b == [] {
      assert a + b == a;
    } else {
      assert (a + b)[..|a + b| - 1] == a + b[..|b| - 1];
      PruneOfJoin(a, b[..|b| - 1], labels);
    }
  }

  lemma Around(f: seq<Node>, i: nat, labels: seq<Tag>)
    requires i < |f| && labels != []
    ensures Size(f) == Size(f[..i]) + 1 + Size(f[i].children) + Size(f[i + 1..])
    ensures Prune(f, labels) == Prune(f[..i], labels) + PruneNode(f[i], labels) + Prune(f[i + 1..], labels)
  {
    assert f == f[..i + 1] + f[i + 1..];
    SizeOfJoin(f[..i + 1], f[i + 1..]);
    PruneOfJoin(f[..i + 1], f[i + 1..], labels);
    assert f[..i + 1][..i] == f[..i];
  }

  /** Removing one offending node brings the tree nearer to its pruned form and no further. */
  lemma {:induction false} RemoveOneConsole(f: seq<Node>, labels: seq<Tag>, pos: Position)
    requires labels != [] && Labelled(f, pos, labels) && NamesXenConsole(At(f, pos).value)
    ensures Prune(RemoveAt(f, pos), labels) == Prune(f, labels)
    ensures Size(RemoveAt(f, pos)) < Size(f)
    decreases |labels|
  {
    var i := pos[0];
    if |pos| == 1 {
      CutNode(f, i, labels);
    } else {
      RemoveOneConsole(f[i].children, labels[1..], pos[1..]);
      ReplaceChildren(f, i, RemoveAt(f[i].children, pos[1..]), labels);
    }
  }

  lemma CutNode(f: seq<Node>, i: nat, labels: seq<Tag>)
    requires i < |f| && labels != [] && PruneNode(f[i], labels) == []
    ensures var g := f[..i] + f[i + 1..]; Prune(g, labels) == Prune(f, labels) && Size(g) < Size(f)
  {
    Around(f, i, labels);
    SizeOfJoin(f[..i], f[i + 1..]);
    PruneOfJoin(f[..i], f[i + 1..], labels);
  }

  lemma ReplaceChildren(f: seq<Node>, i: nat, children: seq<Node>, labels: seq<Tag>)
    requires i < |f| && |labels| > 1 && f[i].tag == labels[0]
    requires Prune(children, labels[1..]) == Prune(f[i].children, labels[1..]) && Size(children) < Size(f[i].children)
    ensures var g := f[i := f[i].(children := children)]; Prune(g, labels) == Prune(f, labels) && Size(g) < Size(f)
  {
    var g := f[i := f[i].(children := children)];
    Around(f, i, labels);
    Around(g, i, labels);
    assert g[..i] == f[..i] && g[i + 1..] == f[i + 1..];
  }

  ghost predicate Clean(f: seq<Node>, labels: seq<Tag>) {
    forall pos :: Labelled(f, pos, labels) ==> !NamesXenConsole(At(f, pos).value)
  }

  lemma CleanParts(f: seq<Node>, labels: seq<Tag>)
    requires labels != [] && f != [] && Clean(f, labels)
    ensures Clean(f[..|f| - 1], labels)
    ensures f[|f| - 1].tag == labels[0] && |labels| > 1 ==> Clean(f[|f| - 1].children, labels[1..])
    ensures f[|f| - 1].tag == labels[0] && |labels| == 1 ==> !NamesXenConsole(f[|f| - 1].value)
  {
    var i := |f| - 1;
    forall pos | Labelled(f[..i], pos, labels) ensures !NamesXenConsole(At(f[..i], pos).value) {
      assert Labelled(f, pos, labels);
    }
    if f[i].tag == labels[0] && |labels| > 1 {
      forall pos | Labelled(f[i].children, pos, labels[1..])
        ensures !NamesXenConsole(At(f[i].children, pos).value)
      {
        assert ([i] + pos)[1..] == pos;
        assert Labelled(f, [i] + pos, labels);
      }
    } else if f[i].tag == labels[0] {
      assert Labelled(f, [i], labels);
    }
  }

  /** A tree without offending nodes is its own pruned form. */
  lemma {:induction false} CleanIsPruned(f: seq<Node>, labels: seq<Tag>)
    requires labels != [] && Clean(f, labels)
    ensures Prune(f, labels) == f
    decreases |labels|, |f|
  {
    if f != [] {
      var last := f[|f| - 1];
      CleanParts(f, labels);
      CleanIsPruned(f[..|f| - 1], labels);
      if last.tag == labels[0] && |labels| > 1 { CleanIsPruned(last.children, labels[1..]); }
      assert f == f[..|f| - 1] + [last];
    }
  }

  // ---- Pruning as a filter of what `aug_match` finds

  /** The values under a plain path, in document order. */
  function Values(f: seq<Node>, labels: seq<Tag>): seq<string>
    requires labels != []
    decreases |labels|, |f|, 1
  {
    if f == [] then [] else Values(f[..|f| - 1], labels) + ValuesIn(f[|f| - 1], labels)
  }

  function ValuesIn(nd: Node, labels: seq<Tag>): seq<string>
    requires labels != []
    decreases |labels|, 0, 0
  {
    if nd.tag != labels[0] then []
    else if |labels| > 1 then Values(nd.children, labels[1..])
    else [nd.value]
  }

  lemma {:induction false} ValuesAreMatched(f: seq<Node>, n: nat, labels: seq<Tag>)
    requires n <= |f| && labels != []
    ensures MatchedValues(f, n, labels) == Values(f[..n], labels)
    decreases |labels|, n
  {
    if n > 0 {
      ValuesAreMatched(f, n - 1, labels);
      assert f[..n][..n - 1] == f[..n - 1];
      var below := f[n - 1].children;
      if f[n - 1].tag == labels[0] && |labels| > 1 {
        ValuesAreMatched(below, |below|, labels[1..]);
        assert below[..|below|] == below;
      }
      ValuesMatchedAt(f, n, labels);
    }
  }

  lemma ValuesMatchedAt(f: seq<Node>, n: nat, labels: seq<Tag>)
    requires 0 < n <= |f| && labels != []
    ensures var nd := f[n - 1];
            MatchedValues(f, n, labels) == MatchedValues(f, n - 1, labels) +
              if nd.tag != labels[0] then []
              else if |labels| > 1 then MatchedValues(nd.children, |nd.children|, labels[1..])
              else [nd.value]
  {
    var path, below := Plain(labels), f[n - 1].children;
    var before, here := MatchUpTo(f, n - 1, path), MatchAt(f, n - 1, path);
    AllLive(f, n, labels);
    assert forall k :: 0 <= k < |here| ==> here[k] == MatchUpTo(f, n, path)[|before| + k];
    if f[n - 1].tag == labels[0] && |labels| > 1 {
      assert path[1..] == Plain(labels[1..]);
      AllLive(below, |below|, labels[1..]);
      var rest := MatchUpTo(below, |below|, path[1..]);
      forall k | 0 <= k < |here| ensures At(f, here[k]) == At(below, rest[k]) {
        assert here[k][1..] == rest[k] && |rest[k]| > 0;
      }
    }
  }

  function Kept(values: seq<string>): seq<string> {
    if values == [] then []
    else Kept(values[..|values| - 1]) + if NamesXenConsole(values[|values| - 1]) then [] else [values[|values| - 1]]
  }

  lemma {:induction false} KeptOfJoin(a: seq<string>, b: seq<string>)
    ensures Kept(a + b) == Kept(a) + Kept(b)
    decreases |b|
  {
    if b == [] {
      assert a + b == a;
    } else {
      assert (a + b)[..|a + b| - 1] == a + b[..|b| - 1];
      KeptOfJoin(a, b[..|b| - 1]);
    }
  }

  lemma {:induction false} ValuesOfJoin(a: seq<Node>, b: seq<Node>, labels: seq<Tag>)
    requires labels != []
    ensures Values(a + b, labels) == Values(a, labels) + Values(b, labels)
    decreases |b|
  {
    if b == [] {
      assert a + b == a;
    } else {
      assert (a + b)[..|a + b| - 1] == a + b[..|b| - 1];
      ValuesOfJoin(a, b[..|b| - 1], labels);
    }
  }

  lemma {:induction false} PruneFiltersValues(f: seq<Node>, labels: seq<Tag>)
    requires labels != []
    ensures Values(Prune(f, labels), labels) == Kept(Values(f, labels))
    decreases |labels|, |f|
  {
    if f != [] {
      var front, last := f[..|f| - 1], f[|f| - 1];
      PruneFiltersValues(front, labels);
      ValuesOfJoin(Prune(front, labels), PruneNode(last, labels), labels);
      KeptOfJoin(Values(front, labels), ValuesIn(last, labels));
      assert forall x: Node :: [x][..0] == [];
      assert forall x: string :: [x][..0] == [];
      if last.tag == labels[0] && |labels| > 1 { PruneFiltersValues(last.children, labels[1..]); }
      assert Values(PruneNode(last, labels), labels) == Kept(ValuesIn(last, labels));
    }
  }

  /** The consoles `aug_match` finds afterwards are those kept before, in the same order. */
  lemma RemainingConsoles(f: seq<Node>)
    ensures var g := Prune(f, CONSOLES);
            MatchedValues(g, |g|, CONSOLES) == Kept(MatchedValues(f, |f|, CONSOLES))
  {
    var g := Prune(f, CONSOLES);
    ValuesAreMatched(f, |f|, CONSOLES);
    ValuesAreMatched(g, |g|, CONSOLES);
    assert f[..|f|] == f && g[..|g|] == g;
    PruneFiltersValues(f, CONSOLES);
  }
}
