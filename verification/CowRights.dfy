/** What copy-on-write does to permissions. */
module CowRights {
  import opened PhysMem
  import opened Cow
  import opened CowRun

  /** With a free page to copy to, a user store below KERNBASE to this page goes through. */
  ghost predicate StoreWorks(m: Mem, sid: nat, vpn: nat) {
    Writable(m, sid, vpn) || CowAccepts(m, User(sid, vpn))
  }

  /** Which stores go through before and after a fork, with a free page to copy
      to.  Before it, all but those to an executable page that is not writable:
      a read-only data page is made writable even without a fork.  After it,
      for parent and child, those to pages that are not executable.  So exactly
      a page that is writable and executable loses its rights.  Compared with
      PTE_W itself, stores after the fork agree with it exactly for pages that
      are writable or executable but not both. */
  lemma ForkRights(m: Mem, r: Mem, parent: nat, child: nat, hi: nat, vpn: nat)
    requires parent != child && Copied(m, r, parent, child, 0, hi) && vpn < hi && r.free != []
    requires User(parent, vpn) in m.slots && m.slots[User(parent, vpn)].flags.u && User(child, vpn) !in m.slots
    ensures var f := m.slots[User(parent, vpn)].flags;
            && (m.free != [] ==> (StoreWorks(m, parent, vpn) <==> f.w || !f.x))
            && (StoreWorks(r, child, vpn) <==> !f.x)
            && (StoreWorks(r, parent, vpn) <==> !f.x)
            && (m.free != [] ==> ((StoreWorks(r, child, vpn) <==> StoreWorks(m, parent, vpn)) <==> !(f.w && f.x)))
            && (m.free != [] ==> ((StoreWorks(r, parent, vpn) <==> StoreWorks(m, parent, vpn)) <==> !(f.w && f.x)))
            && ((StoreWorks(r, child, vpn) <==> f.w) <==> f.w != f.x)
  {
    assert r.slots[User(child, vpn)] == r.slots[User(parent, vpn)] == NoWrite(m.slots[User(parent, vpn)]);
  }
}
