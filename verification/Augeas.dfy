/**
 * The part of an Augeas tree that the bootloader code relies on: labelled nodes, path expressions
 * that may select many nodes, and the canonical path under which `aug_match` reports a node.
 */
module Augeas {
  import opened Wrappers

  /** The labels grub1 code looks for; every other label is of no interest to it. */
  datatype Tag = Title | Kernel | Console | Default | Other(name: string)

  datatype Node = Node(tag: Tag, value: string, children: seq<Node>)

  /** A node, as the indices to follow from the top. */
  type Position = seq<nat>

  /** One component of a path: `tag` or `tag[index]`, with indices from 1. */
  datatype Selector = Selector(tag: Tag, index: Option<int>)

  type Path = seq<Selector>

  /** How many of the first `n` nodes carry `tag`. */
  function CountUpTo(f: seq<Node>, n: nat, tag: Tag): nat
    requires n <= |f|
  {
    if n == 0 then 0 else CountUpTo(f, n - 1, tag) + if f[n - 1].tag == tag then 1 else 0
  }

  function Count(f: seq<Node>, tag: Tag): nat {
    CountUpTo(f, |f|, tag)
  }

  /** The 1-based rank of node `i` among those with its tag. */
  function Rank(f: seq<Node>, i: nat): nat
    requires i < |f|
  {
    CountUpTo(f, i + 1, f[i].tag)
  }

  predicate Chosen(f: seq<Node>, i: nat, sel: Selector)
    requires i < |f|
  {
    f[i].tag == sel.tag && (sel.index.Some? ==> sel.index.value == Rank(f, i))
  }

  function Prefixed(i: nat, ps: seq<Position>): (r: seq<Position>)
    ensures |r| == |ps| && forall k :: 0 <= k < |ps| ==> r[k] == [i] + ps[k]
  {
    seq(|ps|, k requires 0 <= k < |ps| => [i] + ps[k])
  }

  /** The nodes a path selects, in document order, looking only at the first `n` top nodes. */
  function MatchUpTo(f: seq<Node>, n: nat, path: Path): seq<Position>
    requires n <= |f| && path != []
    decreases |path|, n
  {
    if n == 0 then []
    else MatchUpTo(f, n - 1, path) + MatchAt(f, n - 1, path)
  }

  function MatchAt(f: seq<Node>, i: nat, path: Path): seq<Position>
    requires i < |f| && path != []
    decreases |path|, i
  {
    if !Chosen(f, i, path[0]) then []
    else if |path| == 1 then [[i]]
    else Prefixed(i, MatchUpTo(f[i].children, |f[i].children|, path[1..]))
  }

  function Match(f: seq<Node>, path: Path): seq<Position> {
    if path == [] then [] else MatchUpTo(f, |f|, path)
  }

  predicate Live(f: seq<Node>, pos: Position)
    decreases |pos|
  {
    pos != [] && pos[0] < |f| && (|pos| > 1 ==> Live(f[pos[0]].children, pos[1..]))
  }

  function At(f: seq<Node>, pos: Position): Node
    requires Live(f, pos)
    decreases |pos|
  {
    if |pos| == 1 then f[pos[0]] else At(f[pos[0]].children, pos[1..])
  }

  /** The selector `aug_match` reports for node `i`: indexed only when its tag is not unique. */
  function Named(f: seq<Node>, i: nat): Selector
    requires i < |f|
  {
    Selector(f[i].tag, if Count(f, f[i].tag) > 1 then Some(Rank(f, i)) else None)
  }

  function Expand(f: seq<Node>, pos: Position): (path: Path)
    requires Live(f, pos)
    ensures |path| == |pos|
    decreases |pos|
  {
    [Named(f, pos[0])] + if |pos| == 1 then [] else Expand(f[pos[0]].children, pos[1..])
  }

  /** `aug_get`: an error unless exactly one node matches. */
  function Get(f: seq<Node>, path: Path): Option<string> {
    var found := Match(f, path);
    if |found| == 1 && Live(f, found[0]) then Some(At(f, found[0]).value) else None
  }

  /** The whole subtree at `pos` goes. */
  function RemoveAt(f: seq<Node>, pos: Position): seq<Node>
    requires Live(f, pos)
    decreases |pos|
  {
    var i := pos[0];
    if |pos| == 1 then f[..i] + f[i + 1..]
    else f[i := f[i].(children := RemoveAt(f[i].children, pos[1..]))]
  }

  // ---- Canonical paths

  lemma {:induction false} CountGrows(f: seq<Node>, i: nat, j: nat, tag: Tag)
    requires i <= j <= |f|
    ensures CountUpTo(f, i, tag) <= CountUpTo(f, j, tag)
    ensures i < j && f[j - 1].tag == tag ==> CountUpTo(f, i, tag) < CountUpTo(f, j, tag)
    decreases j
  {
    if i < j { CountGrows(f, i, j - 1, tag); }
  }

  /** Two nodes with one tag differ in rank, and neither is alone. */
  lemma RanksDiffer(f: seq<Node>, i: nat, j: nat)
    requires i < j < |f| && f[i].tag == f[j].tag
    ensures Rank(f, i) < Rank(f, j) && Count(f, f[i].tag) > 1
  {
    RankIsPositive(f, i);
    RankIsPositive(f, j);
    CountGrows(f, i + 1, j + 1, f[i].tag);
  }

  lemma RankIsPositive(f: seq<Node>, i: nat)
    requires i < |f|
    ensures 1 <= Rank(f, i) <= Count(f, f[i].tag)
  {
    CountGrows(f, 0, i + 1, f[i].tag);
    CountGrows(f, i + 1, |f|, f[i].tag);
  }

  /** A canonical selector chooses its own node and no other. */
  lemma NamedChoosesOne(f: seq<Node>, i: nat, j: nat)
    requires i < |f| && j < |f|
    ensures Chosen(f, j, Named(f, i)) <==> i == j
  {
    if f[j].tag == f[i].tag && i < j {
      RanksDiffer(f, i, j);
    } else if f[j].tag == f[i].tag && j < i {
      RanksDiffer(f, j, i);
    }
  }

  /** The canonical path of a node selects that node alone, so `aug_get` reads it. */
  lemma {:induction false} ExpandSelectsOne(f: seq<Node>, pos: Position)
    requires Live(f, pos)
    ensures Match(f, Expand(f, pos)) == [pos]
    ensures Get(f, Expand(f, pos)) == Some(At(f, pos).value)
    decreases |pos|
  {
    if |pos| > 1 { ExpandSelectsOne(f[pos[0]].children, pos[1..]); }
    ExpandMatchAt(f, pos);
    forall j | 0 <= j < |f| && Chosen(f, j, Named(f, pos[0])) ensures j == pos[0] {
      NamedChoosesOne(f, pos[0], j);
    }
    OnlyMatchAt(f, |f|, Expand(f, pos), pos[0]);
  }

  lemma ExpandMatchAt(f: seq<Node>, pos: Position)
    requires Live(f, pos)
    requires |pos| > 1 ==> Match(f[pos[0]].children, Expand(f[pos[0]].children, pos[1..])) == [pos[1..]]
    ensures MatchAt(f, pos[0], Expand(f, pos)) == [pos]
  {
    NamedChoosesOne(f, pos[0], pos[0]);
    if |pos| > 1 {
      assert Expand(f, pos)[1..] == Expand(f[pos[0]].children, pos[1..]);
      assert [pos[0]] + pos[1..] == pos;
    } else {
      assert [pos[0]] == pos;
    }
  }

  /** A path whose first selector chooses node `i` alone selects what it selects there. */
  lemma {:induction false} OnlyMatchAt(f: seq<Node>, n: nat, path: Path, i: nat)
    requires n <= |f| && path != [] && i < |f|
    requires forall j :: 0 <= j < |f| && Chosen(f, j, path[0]) ==> j == i
    ensures MatchUpTo(f, n, path) == if i < n then MatchAt(f, i, path) else []
    decreases n
  {
    if n > 0 {
      OnlyMatchAt(f, n - 1, path, i);
      assert i != n - 1 ==> MatchAt(f, n - 1, path) == [];
    }
  }

  // ---- What a plain path selects

  /** A node all of whose labels on the way are those of `labels`. */
  predicate Labelled(f: seq<Node>, pos: Position, labels: seq<Tag>)
    decreases |labels|
  {
    && Live(f, pos) && |pos| == |labels| && f[pos[0]].tag == labels[0]
    && (|pos| > 1 ==> Labelled(f[pos[0]].children, pos[1..], labels[1..]))
  }

  function Plain(labels: seq<Tag>): (path: Path)
    ensures |path| == |labels|
    ensures forall k :: 0 <= k < |labels| ==> path[k] == Selector(labels[k], None)
  {
    seq(|labels|, k requires 0 <= k < |labels| => Selector(labels[k], None))
  }

  lemma {:induction false} PlainMatch(f: seq<Node>, n: nat, labels: seq<Tag>, pos: Position)
    requires n <= |f| && labels != []
    ensures pos in MatchUpTo(f, n, Plain(labels)) <==> Labelled(f, pos, labels) && pos[0] < n
    decreases |labels|, n
  {
    if n > 0 {
      PlainMatch(f, n - 1, labels, pos);
      PlainMatchAt(f, n - 1, labels, pos);
    }
  }

  lemma {:induction false} PlainMatchAt(f: seq<Node>, i: nat, labels: seq<Tag>, pos: Position)
    requires i < |f| && labels != []
    ensures pos in MatchAt(f, i, Plain(labels)) <==> Labelled(f, pos, labels) && pos[0] == i
    decreases |labels|, i
  {
    var path, below := Plain(labels), f[i].children;
    assert path[1..] == Plain(labels[1..]);
    if |labels| == 1 {
      assert |pos| == 1 ==> pos == [pos[0]];
    } else if f[i].tag == labels[0] {
      var rest := MatchUpTo(below, |below|, path[1..]);
      if pos in Prefixed(i, rest) {
        var k :| 0 <= k < |rest| && pos == [i] + rest[k];
        PlainMatch(below, |below|, labels[1..], rest[k]);
        assert pos[1..] == rest[k];
      }
      if Labelled(f, pos, labels) && pos[0] == i {
        assert Labelled(below, pos[1..], labels[1..]) && pos[1..][0] < |below|;
        PlainMatch(below, |below|, labels[1..], pos[1..]);
        assert pos[1..] in rest;
        var k :| 0 <= k < |rest| && rest[k] == pos[1..];
        assert pos == [i] + rest[k] == Prefixed(i, rest)[k];
      }
    }
  }

  /** Whatever a path selects carries the labels of the path. */
  lemma {:induction false} MatchIsLabelled(f: seq<Node>, n: nat, path: Path, labels: seq<Tag>, pos: Position)
    requires n <= |f| && path != [] && |labels| == |path|
    requires forall k :: 0 <= k < |path| ==> path[k].tag == labels[k]
    requires pos in MatchUpTo(f, n, path)
    ensures Labelled(f, pos, labels)
    decreases |path|, n
  {
    if pos in MatchUpTo(f, n - 1, path) {
      MatchIsLabelled(f, n - 1, path, labels, pos);
    } else {
      assert pos in MatchAt(f, n - 1, path);
      if |path| > 1 {
        var below := f[n - 1].children;
        var rest := MatchUpTo(below, |below|, path[1..]);
        var k :| 0 <= k < |rest| && pos == [n - 1] + rest[k];
        assert pos[1..] == rest[k];
        MatchIsLabelled(below, |below|, path[1..], labels[1..], rest[k]);
      }
    }
  }

  lemma AllLive(f: seq<Node>, n: nat, labels: seq<Tag>)
    requires n <= |f| && labels != []
    ensures forall k :: 0 <= k < |MatchUpTo(f, n, Plain(labels))| ==> Live(f, MatchUpTo(f, n, Plain(labels))[k])
  {
    var found := MatchUpTo(f, n, Plain(labels));
    forall k | 0 <= k < |found| ensures Live(f, found[k]) { PlainMatch(f, n, labels, found[k]); }
  }

  /** The values of the nodes `aug_match` finds among the first `n` top nodes. */
  function MatchedValues(f: seq<Node>, n: nat, labels: seq<Tag>): (r: seq<string>)
    requires n <= |f| && labels != []
  {
    var found := MatchUpTo(f, n, Plain(labels));
    AllLive(f, n, labels);
    seq(|found|, k requires 0 <= k < |found| => At(f, found[k]).value)
  }

  ghost predicate Distinct<T>(s: seq<T>) {
    forall i, j :: 0 <= i < j < |s| ==> s[i] != s[j]
  }

  lemma {:induction false} MatchesDistinct(f: seq<Node>, n: nat, labels: seq<Tag>)
    requires n <= |f| && labels != []
    ensures Distinct(MatchUpTo(f, n, Plain(labels)))
    decreases |labels|, n
  {
    if n > 0 {
      var path := Plain(labels);
      var before, here := MatchUpTo(f, n - 1, path), MatchAt(f, n - 1, path);
      MatchesDistinct(f, n - 1, labels);
      assert path[1..] == Plain(labels[1..]);
      if |labels| > 1 { MatchesDistinct(f[n - 1].children, |f[n - 1].children|, labels[1..]); }
      assert Distinct(here) by {
        if Chosen(f, n - 1, path[0]) && |labels| > 1 {
          PrefixedDistinct(n - 1, MatchUpTo(f[n - 1].children, |f[n - 1].children|, path[1..]));
        }
      }
      forall p | p in before ensures p !in here {
        PlainMatch(f, n - 1, labels, p);
        PlainMatchAt(f, n - 1, labels, p);
      }
      JoinDistinct(before, here);
    }
  }

  lemma JoinDistinct<T>(s: seq<T>, t: seq<T>)
    requires Distinct(s) && Distinct(t) && forall x :: x in s ==> x !in t
    ensures Distinct(s + t)
  {
    forall i, j | 0 <= i < j < |s + t| ensures (s + t)[i] != (s + t)[j] {
      if i < |s| <= j { assert s[i] in s && t[j - |s|] in t; }
    }
  }

  lemma PrefixedDistinct(i: nat, ps: seq<Position>)
    requires Distinct(ps)
    ensures Distinct(Prefixed(i, ps))
  {
    forall j, k | 0 <= j < k < |ps| ensures Prefixed(i, ps)[j] != Prefixed(i, ps)[k] {
      assert ([i] + ps[j])[1..] == ps[j] && ([i] + ps[k])[1..] == ps[k];
    }
  }

  /** The paths `aug_match` returns for an expression made of labels. */
  function Paths(f: seq<Node>, labels: seq<Tag>): (r: seq<Path>)
    requires labels != []
    ensures |r| == |Match(f, Plain(labels))|
    ensures forall k :: 0 <= k < |r| ==>
              Live(f, Match(f, Plain(labels))[k]) && r[k] == Expand(f, Match(f, Plain(labels))[k])
  {
    var found := Match(f, Plain(labels));
    assert forall k :: 0 <= k < |found| ==> Live(f, found[k]) by {
      forall k | 0 <= k < |found| ensures Live(f, found[k]) {
        PlainMatch(f, |f|, labels, found[k]);
      }
    }
    seq(|found|, k requires 0 <= k < |found| => Expand(f, found[k]))
  }

  /** No path is reported twice, and each reads the node it stands for. */
  lemma PathsReadTheirNodes(f: seq<Node>, labels: seq<Tag>)
    requires labels != []
    ensures Distinct(Paths(f, labels))
    ensures forall k :: 0 <= k < |Paths(f, labels)| ==>
              Get(f, Paths(f, labels)[k]) == Some(At(f, Match(f, Plain(labels))[k]).value)
  {
    var found, paths := Match(f, Plain(labels)), Paths(f, labels);
    forall k | 0 <= k < |paths| ensures Match(f, paths[k]) == [found[k]] && Get(f, paths[k]) == Some(At(f, found[k]).value) {
      ExpandSelectsOne(f, found[k]);
    }
    MatchesDistinct(f, |f|, labels);
    forall j, k | 0 <= j < k < |paths| ensures paths[j] != paths[k] {
      assert Match(f, paths[j])[0] == found[j] && Match(f, paths[k])[0] == found[k];
    }
  }
}
