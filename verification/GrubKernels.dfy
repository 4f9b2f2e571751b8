/** `list_kernels` and `set_default_kernel` of the grub1 bootloader, as functions of the tree. */
module GrubKernels {
  import opened Wrappers
  import opened Augeas

  const KERNELS: seq<Tag> := [Title, Kernel]
  const DEFAULT: seq<Tag> := [Default]

  datatype Error = NotUnderGrub | NoEntry | BadNumber | AugeasError

  datatype Result<T> = Ok(value: T) | Failure(error: Error)

  // ---- Numbers as text

  function Digit(d: nat): char
    requires d < 10
  {
    ['0', '1', '2', '3', '4', '5', '6', '7', '8', '9'][d]
  }

  function DigitValue(c: char): Option<int> {
    if '0' <= c <= '9' then Some(c as int - '0' as int) else None
  }

  /** `string_of_int` of a natural number. */
  function Decimal(n: nat): string {
    if n < 10 then [Digit(n)] else Decimal(n / 10) + [Digit(n % 10)]
  }

  function ParseDigits(s: string): Option<int> {
    if s == [] then None
    else match DigitValue(s[|s| - 1])
      case None => None
      case Some(d) =>
        if |s| == 1 then Some(d)
        else match ParseDigits(s[..|s| - 1])
          case None => None
          case Some(n) => Some(10 * n + d)
  }

  /** `int_of_string` of a decimal literal. */
  function IntOfString(s: string): Option<int> {
    if s != [] && (s[0] == '-' || s[0] == '+') then
      match ParseDigits(s[1..])
      case None => None
      case Some(n) => Some(if s[0] == '-' then -n else n)
    else
      match ParseDigits(s)
      case None => None
      case Some(n) => Some(n)
  }

  lemma {:induction false} DecimalParses(n: nat)
    ensures Decimal(n) != [] && ParseDigits(Decimal(n)) == Some(n)
    ensures Decimal(n)[0] != '-' && Decimal(n)[0] != '+'
  {
    if n >= 10 {
      DecimalParses(n / 10);
      assert Decimal(n)[..|Decimal(n)| - 1] == Decimal(n / 10);
    }
  }

  /** A sign in front of the digits is taken for what it says. */
  lemma SignedParses(n: nat)
    ensures IntOfString(Decimal(n)) == Some(n)
    ensures IntOfString(['+'] + Decimal(n)) == Some(n)
    ensures var minus := IntOfString(['-'] + Decimal(n)); minus.Some? && minus.value == 0 - n
  {
    DecimalParses(n);
    assert (['-'] + Decimal(n))[1..] == Decimal(n) && (['+'] + Decimal(n))[1..] == Decimal(n);
  }

  // ---- Kernel names

  /** Where the first line of `s` ends. */
  function LineEnd(s: string): (n: nat)
    ensures n <= |s| && (n < |s| ==> s[n] == '\n')
    ensures forall k :: 0 <= k < n ==> s[k] != '\n'
  {
    if s == [] || s[0] == '\n' then 0 else 1 + LineEnd(s[1..])
  }

  /** Just behind the last closing parenthesis of `s`, or 0. */
  function LastClose(s: string): (n: nat)
    ensures n <= |s| && (n > 0 ==> s[n - 1] == ')')
    ensures forall k :: n <= k < |s| ==> s[k] != ')'
  {
    if s == [] then 0 else if s[|s| - 1] == ')' then |s| else LastClose(s[..|s| - 1])
  }

  /** The regular expression `^\(hd.*\)` matches: `.` stops at the end of the line. */
  predicate HasDrivePrefix(s: string) {
    "(hd" <= s && exists k :: 3 <= k < LineEnd(s) && s[k] == ')'
  }

  /** `remove_hd_prefix` */
  function RemoveDrive(s: string): string {
    if HasDrivePrefix(s) then s[LastClose(s[..LineEnd(s)])..] else s
  }

  /** `k` is where the greedy match ends: the last closing parenthesis of the first line. */
  ghost predicate DriveEndsAt(s: string, k: nat) {
    && 3 <= k < |s| && s[k] == ')' && (forall i :: 0 <= i < k ==> s[i] != '\n')
    && forall i :: k < i < |s| && s[i] == ')' ==> exists j :: k < j < i && s[j] == '\n'
  }

  /** Without a match nothing is removed; with one, exactly the longest. */
  lemma RemoveDriveKeeps(s: string)
    ensures RemoveDrive(s) == s <==> !HasDrivePrefix(s)
    ensures HasDrivePrefix(s) ==> exists k: nat :: DriveEndsAt(s, k) && RemoveDrive(s) == s[k + 1..]
  {
    if HasDrivePrefix(s) {
      var end := LineEnd(s);
      var line := s[..end];
      var k :| 3 <= k < end && s[k] == ')';
      assert line[k] == ')';
      var last := LastClose(line) - 1;
      assert last >= k && line[last] == ')';
      forall i | last < i < end ensures s[i] != ')' { assert line[i] == s[i]; }
      forall i | last < i < |s| && s[i] == ')' ensures exists j :: last < j < i && s[j] == '\n' {
        assert last < end < i && s[end] == '\n';
      }
      assert DriveEndsAt(s, last) && RemoveDrive(s) == s[last + 1..];
      assert |RemoveDrive(s)| < |s|;
    }
  }

  function Name(prefix: string, value: string): string {
    prefix + RemoveDrive(value)
  }

  // ---- list_kernels

  function RemoveDuplicates(paths: seq<Path>): seq<Path> {
    if paths == [] then []
    else
      var front, last := RemoveDuplicates(paths[..|paths| - 1]), paths[|paths| - 1];
      if last in front then front else front + [last]
  }

  function Without(paths: seq<Path>, p: Path): seq<Path> {
    if paths == [] then []
    else Without(paths[..|paths| - 1], p) + if paths[|paths| - 1] == p then [] else [paths[|paths| - 1]]
  }

  /** `title[n]/kernel` */
  function EntryPath(n: int): (p: Path)
    ensures |p| == 2
  {
    [Selector(Title, Some(n)), Selector(Kernel, None)]
  }

  /** The path of the default entry, if there is a default. */
  function DefaultPath(f: seq<Node>): Result<Option<Path>> {
    if Match(f, Plain(DEFAULT)) == [] then Ok(None)
    else match Get(f, Plain(DEFAULT))
      case None => Failure(AugeasError)
      case Some(text) =>
        match IntOfString(text)
        case None => Failure(BadNumber)
        case Some(i) => Ok(Some(EntryPath(i + 1)))
  }

  function Ordered(paths: seq<Path>, default: Option<Path>): seq<Path> {
    match default
    case None => paths
    case Some(p) => [p] + Without(paths, p)
  }

  /** `aug_get` of every path; the first that fails raises. */
  function ReadAll(prefix: string, f: seq<Node>, paths: seq<Path>): Result<seq<string>> {
    if paths == [] then Ok([])
    else
      var last := paths[|paths| - 1];
      match ReadAll(prefix, f, paths[..|paths| - 1])
      case Failure(e) => Failure(e)
      case Ok(names) =>
        match Get(f, last)
        case None => Failure(AugeasError)
        case Some(value) => Ok(names + [Name(prefix, value)])
  }

  function ListKernels(prefix: string, f: seq<Node>): Result<seq<string>> {
    match DefaultPath(f)
    case Failure(e) => Failure(e)
    case Ok(default) => ReadAll(prefix, f, Ordered(RemoveDuplicates(Paths(f, KERNELS)), default))
  }

  // ---- set_default_kernel

  /** The first of `ps` whose node has `value`. */
  function FirstWith(f: seq<Node>, ps: seq<Position>, value: string): (r: Option<Position>)
    requires forall k :: 0 <= k < |ps| ==> Live(f, ps[k])
    ensures r.None? ==> forall k :: 0 <= k < |ps| ==> At(f, ps[k]).value != value
    ensures r.Some? ==> exists k :: 0 <= k < |ps| && r.value == ps[k] && At(f, ps[k]).value == value
                                    && forall j :: 0 <= j < k ==> At(f, ps[j]).value != value
  {
    if ps == [] then None
    else
      var front := FirstWith(f, ps[..|ps| - 1], value);
      if front.Some? then front
      else if At(f, ps[|ps| - 1]).value == value then Some(ps[|ps| - 1])
      else None
  }

  /** `aug_set` of a top-level node: made if missing, an error if ambiguous. */
  function SetTop(f: seq<Node>, tag: Tag, value: string): Option<seq<Node>> {
    var found := Match(f, Plain([tag]));
    if found == [] then Some(f + [Node(tag, value, [])])
    else if |found| == 1 && Live(f, found[0]) then Some(f[found[0][0] := f[found[0][0]].(value := value)])
    else None
  }

  /** The entry that `set_default_kernel` finds: the first in the file that boots `kernel`. */
  function FindEntry(f: seq<Node>, kernel: string): (r: Option<Position>)
    ensures var found, values := Match(f, Plain(KERNELS)), MatchedValues(f, |f|, KERNELS);
            r.Some? ==> exists k :: 0 <= k < |found| && found[k] == r.value
                                    && values[k] == kernel && kernel !in values[..k]
    ensures r.Some? ==> Labelled(f, r.value, KERNELS) && At(f, r.value).value == kernel
    ensures r.None? ==> forall pos :: Labelled(f, pos, KERNELS) ==> At(f, pos).value != kernel
  {
    var found := Match(f, Plain(KERNELS));
    assert forall pos :: pos in found <==> Labelled(f, pos, KERNELS) by {
      forall pos ensures pos in found <==> Labelled(f, pos, KERNELS) { PlainMatch(f, |f|, KERNELS, pos); }
    }
    assert forall k :: 0 <= k < |found| ==> found[k] in found;
    FirstWith(f, found, kernel)
  }

  /** The 0-based index of the entry a path `/title[n]/kernel` or `/title/kernel` lies in. */
  function EntryIndex(path: Path): int
    requires path != []
  {
    match path[0].index
    case Some(n) => n - 1
    case None => 0
  }

  function SetDefault(prefix: string, f: seq<Node>, vmlinuz: string): Result<seq<Node>> {
    if !(prefix <= vmlinuz) then Failure(NotUnderGrub)
    else match FindEntry(f, vmlinuz[|prefix|..])
      case None => Failure(NoEntry)
      case Some(pos) =>
        var i := EntryIndex(Expand(f, pos));
        RankIsPositive(f, pos[0]);
        match SetTop(f, Default, Decimal(i))
        case None => Failure(AugeasError)
        case Some(g) => Ok(g)
  }
}
