/** The page-table walk of the hardware (section 4.4 of the RISC-V privileged architecture, Sv39 with reserved bits
    zero), spelled out in numbers, and what the kernel's page tables mean to it. */
module Sv39 {
  import opened PageTable
  import Vm
  import UserCopy

  datatype Access = Fetch | Load | Store

  datatype Answer = Fault | Found(pte: int, level: nat)

  /** Nine bits of the address choose the entry: 30 and up, 21 and up, 12 and up. An entry is invalid without bit 0, or
      with bit 2 (write) but not bit 1 (read); with bit 1 or bit 3 (execute) it is a leaf, otherwise it points to the
      table of the next level. */
  function Walk(mem: Mem, table: int, va: int, level: nat): Answer
    decreases level
  {
    if table !in mem || |mem[table]| != 512 || level > 2 || va < 0 then Fault
    else
      var pte := mem[table][va / (if level == 2 then 0x4000_0000 else if level == 1 then 0x20_0000 else 0x1000) % 512];
      if pte % 2 == 0 || (pte / 4 % 2 == 1 && pte / 2 % 2 == 0) then Fault
      else if pte / 2 % 2 == 1 || pte / 8 % 2 == 1 then Found(pte, level)
      else if level == 0 then Fault
      else Walk(mem, pte / 0x400 * 0x1000, va, level - 1)
  }

  /** Bit 4 lets user code in; bits 1, 2 and 3 let it load, store and fetch. */
  predicate Permits(pte: int, access: Access) {
    && pte / 16 % 2 == 1
    && match access
       case Load => pte / 2 % 2 == 1
       case Store => pte / 4 % 2 == 1
       case Fetch => pte / 8 % 2 == 1
  }

  /** Where user code's access to va goes, -1 for a fault. */
  function UserAccess(mem: Mem, root: int, va: int, access: Access): int {
    match Walk(mem, root, va, 2)
    case Fault => -1
    case Found(pte, level) =>
      if !Permits(pte, access) then -1
      else pte / 0x400 * 0x1000 + va % (if level == 2 then 0x4000_0000 else if level == 1 then 0x20_0000 else 0x1000)
  }

  lemma {:induction false} Indices(va: int)
    requires 0 <= va < 0x40_0000_0000
    ensures va / 0x4000_0000 % 512 == I2(va / 4096) < 256 && va / 0x20_0000 % 512 == I1(va / 4096)
    ensures va / 0x1000 % 512 == I0(va / 4096) && 0 <= va / 4096 < VPNS
  {
    var v := va / 4096;
    var w := v / 512;
    assert va / 0x20_0000 == w by {
      assert va == 0x20_0000 * w + (4096 * (v % 512) + va % 4096);
    }
    assert va / 0x4000_0000 == v / 262144 by {
      assert va == 0x4000_0000 * (v / 262144) + (4096 * (v % 262144) + va % 4096);
    }
  }

  /** The low bits of an entry. */
  lemma {:induction false} Bits(e: int, q: int, b0: int, b1: int, b2: int, b3: int, b4: int)
    requires e == 1024 * q + b0 + 2 * b1 + 4 * b2 + 8 * b3 + 16 * b4
    requires 0 <= b0 < 2 && 0 <= b1 < 2 && 0 <= b2 < 2 && 0 <= b3 < 2 && 0 <= b4 < 2
    ensures e % 2 == b0 && e / 2 % 2 == b1 && e / 4 % 2 == b2 && e / 8 % 2 == b3 && e / 16 % 2 == b4
  {
    Half(e, 512 * q + b1 + 2 * b2 + 4 * b3 + 8 * b4, b0);
    assert e / 2 == 512 * q + b1 + 2 * b2 + 4 * b3 + 8 * b4;
    Half(e / 2, 256 * q + b2 + 2 * b3 + 4 * b4, b1);
    assert e / 4 == 256 * q + b2 + 2 * b3 + 4 * b4;
    Half(e / 4, 128 * q + b3 + 2 * b4, b2);
    assert e / 8 == 128 * q + b3 + 2 * b4;
    Half(e / 8, 64 * q + b4, b3);
    assert e / 16 == 64 * q + b4;
    Half(e / 16, 32 * q, b4);
  }

  lemma {:induction false} Half(x: int, h: int, b: int)
    requires x == 2 * h + b && 0 <= b < 2
    ensures x % 2 == b && x / 2 == h
  {
  }

  /** A directory entry with only the valid bit is a pointer to the next table. */
  lemma {:induction false} Pointer(pte: int)
    requires Flags(pte) == 1
    ensures pte % 2 == 1 && pte / 2 % 2 == 0 && pte / 4 % 2 == 0 && pte / 8 % 2 == 0
  {
    Bits(pte, pte / 1024, 1, 0, 0, 0, 0);
  }

  /** The hardware finds the entry that the kernel put there for the page, and goes to the page it names if the entry
      allows it. */
  lemma {:induction false} Translation(mem: Mem, use: map<int, Use>, root: int, va: int, access: Access)
    requires Trees(mem, use) && IsRoot(mem, use, root) && 0 <= va < 0x40_0000_0000
    ensures var e := Entry(mem, root, va / 4096);
      UserAccess(mem, root, va, access)
      == if e % 2 == 1 && (e / 4 % 2 == 1 ==> e / 2 % 2 == 1) && Permits(e, access) then Pa(e) + va % 4096 else -1
  {
    Indices(va);
    var x := va / 4096;
    EntryPath(mem, use, root, x);
    hide Trees, IsRoot;
    var e2 := mem[root][I2(x)];
    if V(e2) {
      Pointer(e2);
      var m := Pa(e2);
      var e1 := mem[m][I1(x)];
      assert Walk(mem, root, va, 2) == Walk(mem, m, va, 1);
      if V(e1) {
        Pointer(e1);
        assert Walk(mem, m, va, 1) == Walk(mem, Pa(e1), va, 0);
      }
    }
  }

  /** Memory that uvmalloc added: user code can load every byte of it, and store and fetch as the permissions say. */
  lemma {:induction false} AddedMemory(mem: Mem, use: map<int, Use>, root: int, lo: int, hi: int, xperm: int, va: int)
    requires Trees(mem, use) && IsRoot(mem, use, root) && 0 <= lo && hi <= VPNS && 0 <= xperm < 16 && xperm % 4 == 0
    requires Vm.Zeroed(mem, root, lo, hi, 1 + Vm.PTE_R + Vm.PTE_U + xperm) && V(Entry(mem, root, va / 4096))
    requires 4096 * lo <= va < 4096 * hi
    ensures UserAccess(mem, root, va, Load) == Pa(Entry(mem, root, va / 4096)) + va % 4096
    ensures UserAccess(mem, root, va, Store) != -1 <==> xperm / 4 % 2 == 1
    ensures UserAccess(mem, root, va, Fetch) != -1 <==> xperm / 8 == 1
    ensures UserCopy.Accessible(mem, root, va)
  {
    hide Entry, IsRoot, UserAccess, TableOk;
    var e := Entry(mem, root, va / 4096);
    assert 0 < Pa(e);
    Translation(mem, use, root, va, Load);
    Translation(mem, use, root, va, Store);
    Translation(mem, use, root, va, Fetch);
    FlagValues(e, xperm);
  }

  lemma {:induction false} FlagValues(e: int, xperm: int)
    requires Flags(e) == 1 + Vm.PTE_R + Vm.PTE_U + xperm && 0 <= xperm < 16 && xperm % 4 == 0
    ensures e % 2 == 1 && e / 2 % 2 == 1 && e / 4 % 2 == xperm / 4 % 2 && e / 8 % 2 == xperm / 8 && e / 16 % 2 == 1
  {
    assert xperm == 4 * (xperm / 4 % 2) + 8 * (xperm / 8) && 0 <= xperm / 8 < 2;
    Bits(e, e / 1024, 1, 1, xperm / 4 % 2, xperm / 8, 1);
  }

  /** The kernel's tests of an entry are the hardware's: valid, leaf, and the page it names. */
  lemma {:induction false} EntryBits(pte: int)
    ensures V(pte) <==> pte % 2 == 1
    ensures IsLeaf(pte) <==> pte / 2 % 2 == 1 || pte / 4 % 2 == 1 || pte / 8 % 2 == 1
    ensures UserCopy.U(pte) <==> pte / 16 % 2 == 1
    ensures Pa(pte) == pte / 0x400 * 0x1000
  {
    var h := pte / 2;
    var a, b, c, r := h % 2, h / 2 % 2, h / 4 % 2, h / 8;
    Quarter(pte, h);
    assert h == 8 * r + (a + 2 * b + 4 * c) by {
      assert h / 4 == 2 * r + c && h / 2 == 2 * (h / 4) + b;
    }
    EighthOf(h, r, a + 2 * b + 4 * c);
  }

  lemma {:induction false} Quarter(x: int, h: int)
    requires h == x / 2
    ensures h / 2 == x / 4 && h / 4 == x / 8 && h / 8 == x / 16
  {
  }

  lemma {:induction false} EighthOf(x: int, q: int, r: int)
    requires x == 8 * q + r && 0 <= r < 8
    ensures x % 8 == r
  {
  }
}
