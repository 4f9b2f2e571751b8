/** The class `bootloader_grub1`: the operations that change the configuration tree. */
module Grub1 {
  import opened Wrappers
  import opened Augeas
  import opened GrubConsoles
  import opened GrubKernels
  import opened GrubRoundTrip

  /** One turn of the loop meets the canonical path of a live console. */
  lemma NextConsole(f: seq<Node>, done: nat)
    requires done < |Paths(f, CONSOLES)|
    ensures var path, pos := Paths(f, CONSOLES)[done], Match(f, Plain(CONSOLES))[done];
            && path != [] && Labelled(f, pos, CONSOLES) && Match(f, path) == [pos]
            && Get(f, path) == Some(At(f, pos).value)
  {
    var pos := Match(f, Plain(CONSOLES))[done];
    PlainMatch(f, |f|, CONSOLES, pos);
    ExpandSelectsOne(f, pos);
  }

  lemma NoneLeft(f: seq<Node>)
    requires forall k :: 0 <= k < |Paths(f, CONSOLES)| ==>
               !NamesXenConsole(At(f, Match(f, Plain(CONSOLES))[k]).value)
    ensures Prune(f, CONSOLES) == f
  {
    forall pos | Labelled(f, pos, CONSOLES) ensures !NamesXenConsole(At(f, pos).value) {
      PlainMatch(f, |f|, CONSOLES, pos);
      var k :| 0 <= k < |Paths(f, CONSOLES)| && Match(f, Plain(CONSOLES))[k] == pos;
    }
    CleanIsPruned(f, CONSOLES);
  }

  class Bootloader {
    const grubPrefix: string
    var tree: seq<Node>

    constructor (mounts: set<string>, config: seq<Node>)
      ensures tree == config
      ensures grubPrefix in {"/boot/grub", "/boot"} ==> grubPrefix in mounts
      ensures "/boot/grub" in mounts ==> grubPrefix == "/boot/grub"
      ensures "/boot" in mounts ==> grubPrefix != ""
      ensures grubPrefix == "" || grubPrefix == "/boot" || grubPrefix == "/boot/grub"
    {
      grubPrefix :=
        if "/boot/grub" in mounts then "/boot/grub" else if "/boot" in mounts then "/boot" else "";
      tree := config;
    }

    /**
     * `set_default_kernel`: it succeeds exactly when the kernel is under the prefix and booted by
     * some entry.  Then `list_kernels` starts with it whenever that entry has no other kernel line
     * and the name no drive prefix.  An error changes nothing.
     */
    method SetDefaultKernel(vmlinuz: string) returns (error: Option<Error>)
      modifies this
      ensures error.None? <==>
                grubPrefix <= vmlinuz && Count(old(tree), Default) <= 1
                && Boots(old(tree), vmlinuz[|grubPrefix|..])
      ensures error == Some(NotUnderGrub) <==> !(grubPrefix <= vmlinuz)
      ensures error.Some? ==> tree == old(tree)
      ensures error.None? ==> SameTitles(old(tree), tree)
      ensures error.None? && SoleKernel(old(tree), vmlinuz[|grubPrefix|..])
                && !HasDrivePrefix(vmlinuz[|grubPrefix|..]) ==>
                var all := Names(grubPrefix, old(tree), Paths(old(tree), KERNELS));
                && ListKernels(grubPrefix, tree).Ok?
                && Offers(ListKernels(grubPrefix, tree).value, vmlinuz, all, Extra(old(tree), vmlinuz))
    {
      SetDefaultSucceeds(grubPrefix, tree, vmlinuz);
      match SetDefault(grubPrefix, tree, vmlinuz)
      case Failure(e) =>
        error := Some(e);
      case Ok(edited) =>
        DefaultRoundTrip(grubPrefix, tree, vmlinuz);
        NameIsVmlinuz(grubPrefix, vmlinuz);
        DefaultIsEntry(grubPrefix, tree, vmlinuz);
        DefaultListed(grubPrefix, tree, vmlinuz);
        tree := edited;
        error := None;
    }

    /**
     * `remove_console`: every path the loop reads is the path of a live node, so no `aug_get`
     * fails, and the tree left is the old one without the consoles that name a Xen console.
     */
    method RemoveConsole() returns (failed: bool)
      modifies this
      ensures !failed
      ensures tree == Prune(old(tree), CONSOLES)
    {
      failed := false;
      var paths := Paths(tree, CONSOLES);
      ghost var done := 0;
      while paths != []
        invariant !failed && Prune(tree, CONSOLES) == Prune(old(tree), CONSOLES)
        invariant done <= |Paths(tree, CONSOLES)| && paths == Paths(tree, CONSOLES)[done..]
        invariant forall k :: 0 <= k < done ==>
                    !NamesXenConsole(At(tree, Match(tree, Plain(CONSOLES))[k]).value)
        decreases Size(tree), |paths|
      {
        NextConsole(tree, done);
        match Get(tree, paths[0])
        case None =>
          failed := true;
          return;
        case Some(console) =>
          if NamesXenConsole(console) {
            RemoveOneConsole(tree, CONSOLES, Match(tree, paths[0])[0]);
            tree := RemoveAt(tree, Match(tree, paths[0])[0]);
            paths := Paths(tree, CONSOLES);
            done := 0;
          } else {
            paths := paths[1..];
            done := done + 1;
          }
      }
      NoneLeft(tree);
    }
  }
}
