/**
 Which pages ring 3 may use. Access is the intersection of every level of the
 walk (Intel SDM Vol. 3A, section 4.6), so a page is open to user code only
 when each entry on its path carries the user bit.
 */
module PageUser {
  import opened Basics
  import opened PageWalk

  /** Every entry followed on the way to the table of the given level is open. */
  function UserPath(mem: Tables, root: nat, vpn: nat, level: nat): bool
    decreases 3 - level
  {
    level >= 3 ||
    (UserPath(mem, root, vpn, level + 1) &&
     match TableAt(mem, root, vpn, level + 1)
     case None => false
     case Some(f) => Entry(mem, f, Index(vpn, level + 1)).bits.user)
  }

  lemma {:induction false} UserPathStays(mem: Tables, mem': Tables, own: map<nat, Owner>, roots: map<nat, nat>, t: nat,
                                         space: nat, vpn: nat, level: nat)
    requires Inv(mem, own, roots) && space in roots && vpn < VPN_LIMIT && level <= 3
    requires t in own && own[t].level <= level && ChangesOnly(mem, mem', own, t)
    requires TableAt(mem, roots[space], vpn, level).Some?
    ensures UserPath(mem', roots[space], vpn, level) == UserPath(mem, roots[space], vpn, level)
    decreases 3 - level
  {
    if level < 3 {
      UserPathStays(mem, mem', own, roots, t, space, vpn, level + 1);
      PathStays(mem, mem', own, roots, t, space, vpn, level + 1);
      TableAtServes(mem, own, roots, space, vpn, level + 1);
    }
  }

  /** The right of a page is the right of its path and of what follows. */
  lemma {:induction false} UserFromTable(mem: Tables, root: nat, vpn: nat, level: nat)
    requires level <= 3 && TableAt(mem, root, vpn, level).Some?
    ensures UserMay(mem, root, vpn) ==
            (UserPath(mem, root, vpn, level) && UserWalk(mem, TableAt(mem, root, vpn, level).value, vpn, level))
    decreases 3 - level
  {
    if level < 3 {
      UserFromTable(mem, root, vpn, level + 1);
    }
  }

  /** Ring 3 never gets past the kernel's first branch while its top-level
      entry is closed, in whichever space it looks. */
  lemma KernelPagesClosed(mem: Tables, own: map<nat, Owner>, roots: map<nat, nat>, s: nat, vpn: nat)
    requires Inv(mem, own, roots) && s in roots && vpn < USER_VPN
    requires !Entry(mem, roots[KERNEL], 0).bits.user
    ensures !UserMay(mem, roots[s], vpn)
  {
    TopPrefix(vpn);
    assert Entry(mem, roots[s], 0) == Entry(mem, roots[KERNEL], 0);
  }
}
