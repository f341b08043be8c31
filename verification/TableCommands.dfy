/** `break` and `del` on the breakpoint table of a live process (src/debugger.c). */
module TableCommands {
  import opened Machine
  import BP = Breakpoints
  import opened Sessions
  import opened IndexLists

  /** The overlay survives the removal of a disabled entry. */
  lemma RemoveDisabled(image: Code, bs: seq<BP.Breakpoint>, code: Code, i: nat)
    requires BP.Overlay(image, bs, {}, code) && i < |bs| && !bs[i].enabled
    ensures BP.Overlay(image, Remove(bs, i), {}, code)
  {
    var bs' := Remove(bs, i);
    assert forall j :: 0 <= j < |bs'| ==> bs'[j] == bs[if j < i then j else j + 1];
    forall a ensures a in BP.EnabledAddrs(bs) <==> a in BP.EnabledAddrs(bs') {
      if a in BP.EnabledAddrs(bs) {
        var j :| 0 <= j < |bs| && bs[j].enabled && bs[j].addr == a;
        assert bs'[if j < i then j else j - 1] == bs[j];
      }
    }
    assert BP.EnabledAddrs(bs) == BP.EnabledAddrs(bs');
  }

  lemma Added(image: Code, bs: seq<BP.Breakpoint>, code: Code, code': Code, b: BP.Breakpoint)
    requires BP.Overlay(image, bs, {}, code) && b.addr in code && b.enabled && b.saved == code[b.addr]
    requires code' == code[b.addr := TRAP_BYTE]
    ensures BP.Overlay(image, bs + [b], {}, code') <==> b.addr !in BP.Addrs(bs)
  {
    var bs' := bs + [b];
    if b.addr in BP.Addrs(bs) {
      var i :| 0 <= i < |bs| && bs[i].addr == b.addr;
      assert bs'[i].addr == bs'[|bs|].addr;
    } else {
      forall i, j | 0 <= i < j < |bs'| ensures bs'[i].addr != bs'[j].addr {
        assert bs'[i] in bs;
      }
      assert BP.EnabledAddrs(bs') == BP.EnabledAddrs(bs) + {b.addr};
      assert b.addr !in BP.EnabledAddrs(bs);
      assert code' == Patch(image, BP.EnabledAddrs(bs') + {});
    }
  }

  /** Sets a breakpoint at the end of the table. The overlay is kept exactly when no entry, armed
      or not, already has the address: duplicates are not rejected. */
  method Break(d: Session, a: Addr, spec: string) returns (rc: int)
    requires d.count <= d.table.Length == BP.MAX_BREAKPOINTS
    modifies d`code, d`count, d.table
    ensures d.count <= d.table.Length && (rc == 0 || rc == -1)
    ensures rc == 0 <==> old(d.count) < BP.MAX_BREAKPOINTS && a in old(d.code)
    ensures rc == -1 ==> d.Bps() == old(d.Bps()) && d.code == old(d.code)
    ensures rc == 0 ==>
              && d.Bps() == old(d.Bps()) + [BP.Breakpoint(a, old(d.code)[a], true, spec)]
              && d.code == old(d.code)[a := TRAP_BYTE]
    ensures old(d.Ok({})) ==> (d.Ok({}) <==> rc == -1 || a !in old(BP.Addrs(d.Bps())))
    ensures old(DisabledOnlyAt(d.Bps(), d.core.pc)) ==> DisabledOnlyAt(d.Bps(), d.core.pc)
  {
    if d.count >= BP.MAX_BREAKPOINTS {
      return -1;
    }
    ghost var bs := d.Bps();
    var index := d.count;
    var r := BP.Enable(d.code, d.table[index], a);
    if r.None? {
      return -1;
    }
    d.code := r.value.0;
    d.table[index] := r.value.1.(spec := spec);
    d.count := d.count + 1;
    assert d.Bps() == bs + [d.table[index]];
    if old(d.Ok({})) {
      Added(d.image, bs, old(d.code), d.code, d.table[index]);
    }
    rc := 0;
  }

  /** Takes one entry out of the table, its trap byte out of memory first. */
  method DeleteAt(d: Session, index: nat) returns (rc: int)
    requires d.Ok({})
    modifies d`code, d`count, d.table
    ensures d.Ok({})
    ensures if index < old(d.count) then rc == 0 && d.Bps() == Remove(old(d.Bps()), index)
            else rc == -1 && d.Bps() == old(d.Bps())
  {
    if index >= d.count {
      return -1;
    }
    ghost var bs := d.Bps();
    rc := d.DisableAt(index, {});
    if rc != 0 { return -1; }
    ghost var bs1 := d.Bps();
    assert Remove(bs1, index) == Remove(bs, index);
    RemoveDisabled(d.image, bs1, d.code, index);
    ShiftDown(d, index);
  }

  method ShiftDown(d: Session, index: nat)
    requires index < d.count <= d.table.Length
    modifies d`count, d.table
    ensures d.count <= d.table.Length && d.Bps() == Remove(old(d.Bps()), index)
  {
    ghost var bs := d.Bps();
    var i := index + 1;
    while i < d.count
      invariant index < i <= d.count == |bs| <= d.table.Length
      invariant forall j :: 0 <= j < i - 1 ==> d.table[j] == Remove(bs, index)[j]
      invariant forall j :: i <= j < d.count ==> d.table[j] == bs[j]
    {
      d.table[i - 1] := d.table[i];
      i := i + 1;
    }
    d.count := d.count - 1;
    assert d.Bps() == Remove(bs, index);
  }

  method DeleteNext(d: Session, index: nat, ghost bs: seq<BP.Breakpoint>, ghost order: seq<nat>, ghost i: nat) returns (rc: int)
    requires d.Ok({}) && i < |order| && order[i] == index && Descending(order) && forall x :: x in order ==> x < |bs|
    requires d.Bps() == Without(bs, Named(order[..i]))
    modifies d`code, d`count, d.table
    ensures rc == 0 && d.Ok({}) && d.Bps() == Without(bs, Named(order[..i + 1]))
  {
    NextDeletion(bs, order, i);
    rc := DeleteAt(d, index);
  }

  /** `del n ...`: exactly the named entries go, whatever the order and repeats; one bad number
      and nothing does. */
  method DeleteCommand(d: Session, numbers: seq<nat>) returns (rc: int)
    requires d.Ok({})
    modifies d`code, d`count, d.table
    ensures d.Ok({})
    ensures if old(d.count) == 0 || forall x :: x in numbers ==> x < old(d.count)
            then rc == 0 && d.Bps() == Without(old(d.Bps()), if old(d.count) == 0 then {} else Named(numbers))
            else rc == -1 && d.Bps() == old(d.Bps()) && d.code == old(d.code)
  {
    ghost var bs := d.Bps();
    if d.count == 0 {
      return 0;
    }
    var ok, indices, n := DeletionOrder(numbers, d.count, BP.MAX_BREAKPOINTS);
    if !ok {
      return -1;
    }
    ghost var order := indices[..n];
    WithoutNone(bs, Named(order[..0]));
    var i := 0;
    while i < n
      invariant i <= n && d.Ok({}) && indices[..n] == order
      invariant d.Bps() == Without(bs, Named(order[..i]))
    {
      rc := DeleteNext(d, indices[i], bs, order, i);
      if rc != 0 { return -1; }
      i := i + 1;
    }
    assert order[..n] == order;
    rc := 0;
  }

  /** `del all` gives the program back its own code. */
  method DeleteAll(d: Session) returns (rc: int)
    requires d.Ok({})
    modifies d`code, d`count, d.table
    ensures rc == 0 && d.count == 0 && d.code == d.image
  {
    while d.count > 0
      invariant d.Ok({})
      decreases d.count
    {
      rc := DeleteAt(d, d.count - 1);
      if rc != 0 { return -1; }
    }
    BP.EmptyOverlay(d.image, d.code);
    assert d.Bps() == [];
    rc := 0;
  }

  /** No user breakpoint left disabled elsewhere by a deletion. */
  lemma {:induction false} WithoutDisabled(bs: seq<BP.Breakpoint>, named: set<nat>, pc: Addr)
    requires DisabledOnlyAt(bs, pc)
    ensures DisabledOnlyAt(Without(bs, named), pc)
  {
    if bs != [] {
      WithoutDisabled(bs[..|bs| - 1], named, pc);
    }
  }
}
