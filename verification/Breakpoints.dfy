/** The breakpoint table and what it does to code memory (src/breakpoint.c). */
module Breakpoints {
  import opened Basics
  import opened Machine

  datatype Breakpoint = Breakpoint(addr: Addr, saved: Byte, enabled: bool, spec: string)

  const MAX_BREAKPOINTS: nat := 64

  /** Reading and writing code memory succeeds exactly on mapped addresses. */
  function Enable(code: Code, bp: Breakpoint, addr: Addr): (r: Option<(Code, Breakpoint)>) {
    if addr !in code then None
    else Some((code[addr := TRAP_BYTE], bp.(addr := addr, saved := code[addr], enabled := true)))
  }

  function Disable(code: Code, bp: Breakpoint): (r: Option<(Code, Breakpoint)>) {
    if !bp.enabled then Some((code, bp))
    else if bp.addr !in code then None
    else Some((code[bp.addr := bp.saved], bp.(enabled := false)))
  }

  /** INT3 leaves the pc one past the breakpoint it hit. */
  predicate MatchesPc(pc: Addr, bp: Breakpoint) {
    bp.enabled && bp.addr + 1 == pc
  }

  ghost function Addrs(bs: seq<Breakpoint>): set<Addr> {
    set b | b in bs :: b.addr
  }

  ghost function EnabledAddrs(bs: seq<Breakpoint>): set<Addr> {
    set b | b in bs && b.enabled :: b.addr
  }

  ghost predicate Distinct(bs: seq<Breakpoint>) {
    forall i, j :: 0 <= i < j < |bs| ==> bs[i].addr != bs[j].addr
  }

  /** Code memory is the image with traps at exactly the enabled breakpoints and at `temps`,
      and every saved byte is the original one. */
  ghost predicate Overlay(image: Code, bs: seq<Breakpoint>, temps: set<Addr>, code: Code) {
    && Distinct(bs)
    && (forall b :: b in bs ==> b.addr in image && b.saved == image[b.addr])
    && (forall b :: b in bs && !b.enabled ==> b.addr !in temps)
    && temps <= image.Keys
    && code == Patch(image, EnabledAddrs(bs) + temps)
  }

  lemma OverlayFacts(image: Code, bs: seq<Breakpoint>, temps: set<Addr>, code: Code)
    requires Overlay(image, bs, temps, code)
    ensures Distinct(bs) && Addrs(bs) <= image.Keys && EnabledAddrs(bs) + temps <= image.Keys
    ensures code == Patch(image, EnabledAddrs(bs) + temps) && code.Keys == image.Keys
  {
  }

  /** Only the enabled flags may differ. */
  ghost predicate SameBreaks(bs: seq<Breakpoint>, bs': seq<Breakpoint>) {
    && |bs| == |bs'|
    && forall i :: 0 <= i < |bs| ==> bs'[i] == bs[i].(enabled := bs'[i].enabled)
  }

  /** Armed again, unless disabled and the thread still sits on it. */
  function Rearmed(b: Breakpoint, pc: Addr): Breakpoint {
    b.(enabled := b.enabled || b.addr != pc)
  }

  function Rearm(bs: seq<Breakpoint>, pc: Addr): seq<Breakpoint> {
    seq(|bs|, i requires 0 <= i < |bs| => Rearmed(bs[i], pc))
  }

  lemma SameAddrs(bs: seq<Breakpoint>, bs': seq<Breakpoint>)
    requires SameBreaks(bs, bs')
    ensures Addrs(bs) == Addrs(bs')
  {
    forall a | a in Addrs(bs) ensures a in Addrs(bs') {
      var i :| 0 <= i < |bs| && bs[i].addr == a;
      assert bs'[i].addr == a;
    }
    forall a | a in Addrs(bs') ensures a in Addrs(bs) {
      var i :| 0 <= i < |bs'| && bs'[i].addr == a;
      assert bs[i].addr == a;
    }
  }

  lemma EnabledUpdate(bs: seq<Breakpoint>, i: nat, on: bool)
    requires Distinct(bs) && i < |bs|
    ensures EnabledAddrs(bs[i := bs[i].(enabled := on)]) ==
              if on then EnabledAddrs(bs) + {bs[i].addr} else EnabledAddrs(bs) - {bs[i].addr}
  {
    var bs' := bs[i := bs[i].(enabled := on)];
    forall a ensures a in EnabledAddrs(bs') <==>
        if a == bs[i].addr then on else a in EnabledAddrs(bs)
    {
      if a in EnabledAddrs(bs') {
        var j :| 0 <= j < |bs'| && bs'[j].enabled && bs'[j].addr == a;
        assert j != i ==> bs[j] in bs;
      }
      if a in EnabledAddrs(bs) && a != bs[i].addr {
        var j :| 0 <= j < |bs| && bs[j].enabled && bs[j].addr == a;
        assert bs'[j] == bs[j];
      }
      if a == bs[i].addr && on {
        assert bs'[i] in bs';
      }
    }
  }

  /** Arming a disabled breakpoint saves the original byte and keeps the overlay. */
  lemma EnableKeepsOverlay(image: Code, bs: seq<Breakpoint>, temps: set<Addr>, code: Code, i: nat)
    requires Overlay(image, bs, temps, code) && i < |bs| && !bs[i].enabled
    ensures Enable(code, bs[i], bs[i].addr).Some?
    ensures var (code', bp') := Enable(code, bs[i], bs[i].addr).value;
            bp' == bs[i].(enabled := true) && Overlay(image, bs[i := bp'], temps, code')
  {
    var a := bs[i].addr;
    assert a !in EnabledAddrs(bs) by {
      forall j | 0 <= j < |bs| && bs[j].enabled ensures bs[j].addr != a {
        if j < i { } else if i < j { }
      }
    }
    var (code', bp') := Enable(code, bs[i], a).value;
    EnabledUpdate(bs, i, true);
    OverlayUpdate(image, bs, temps, i, true);
    assert code' == Patch(image, EnabledAddrs(bs[i := bp']) + temps);
  }

  lemma OverlayUpdate(image: Code, bs: seq<Breakpoint>, temps: set<Addr>, i: nat, on: bool)
    requires i < |bs| && Distinct(bs) && bs[i].addr in image && (bs[i].addr !in temps || on)
    requires forall b :: b in bs ==> b.addr in image && b.saved == image[b.addr]
    requires forall b :: b in bs && !b.enabled ==> b.addr !in temps
    ensures var bs' := bs[i := bs[i].(enabled := on)];
            && Distinct(bs')
            && (forall b :: b in bs' ==> b.addr in image && b.saved == image[b.addr])
            && (forall b :: b in bs' && !b.enabled ==> b.addr !in temps)
  {
    var bs' := bs[i := bs[i].(enabled := on)];
    assert forall j :: 0 <= j < |bs'| ==> bs'[j].addr == bs[j].addr && bs'[j].saved == bs[j].saved;
    forall b | b in bs' ensures b.addr in image && b.saved == image[b.addr] && (!b.enabled ==> b.addr !in temps) {
      var j :| 0 <= j < |bs'| && bs'[j] == b;
      assert bs[j] in bs;
    }
  }

  lemma DisableKeepsOverlay(image: Code, bs: seq<Breakpoint>, temps: set<Addr>, code: Code, i: nat)
    requires Overlay(image, bs, temps, code) && i < |bs| && bs[i].addr !in temps
    ensures Disable(code, bs[i]).Some?
    ensures var (code', bp') := Disable(code, bs[i]).value;
            bp' == bs[i].(enabled := false) && Overlay(image, bs[i := bp'], temps, code')
  {
    var (code', bp') := Disable(code, bs[i]).value;
    EnabledUpdate(bs, i, false);
    OverlayUpdate(image, bs, temps, i, false);
    if !bs[i].enabled {
      assert bs[i := bp'] == bs;
    } else {
      assert bs[i] in bs;
      assert code' == Patch(image, EnabledAddrs(bs[i := bp']) + temps);
    }
  }

  /** The byte a temporary breakpoint at `t` finds over the user breakpoints. */
  ghost function Underneath(image: Code, bs: seq<Breakpoint>, t: Addr): Byte
    requires t in image
  {
    if t in EnabledAddrs(bs) then TRAP_BYTE else image[t]
  }

  lemma TempOn(image: Code, bs: seq<Breakpoint>, code: Code, temp: Breakpoint, t: Addr)
    requires Overlay(image, bs, {}, code) && t in image
    requires forall b :: b in bs && !b.enabled ==> b.addr != t
    ensures Enable(code, temp, t).Some?
    ensures var (code', temp') := Enable(code, temp, t).value;
            && temp' == temp.(addr := t, enabled := true, saved := Underneath(image, bs, t))
            && Overlay(image, bs, {t}, code')
  {
    var (code', _) := Enable(code, temp, t).value;
    assert code' == Patch(image, EnabledAddrs(bs) + {t});
  }

  lemma TempOff(image: Code, bs: seq<Breakpoint>, code: Code, temp: Breakpoint)
    requires temp.enabled && Overlay(image, bs, {temp.addr}, code)
    requires temp.saved == Underneath(image, bs, temp.addr)
    ensures Disable(code, temp).Some?
    ensures Overlay(image, bs, {}, Disable(code, temp).value.0)
  {
    var code' := Disable(code, temp).value.0;
    assert code' == Patch(image, EnabledAddrs(bs) + {});
  }

  /** Re-arming user breakpoints leaves what lies under a temporary one unchanged. */
  lemma UnderneathStable(image: Code, bs: seq<Breakpoint>, bs': seq<Breakpoint>, t: Addr)
    requires t in image && SameBreaks(bs, bs')
    requires forall b :: b in bs && !b.enabled ==> b.addr != t
    requires forall b :: b in bs' && !b.enabled ==> b.addr != t
    ensures Underneath(image, bs, t) == Underneath(image, bs', t)
  {
    if t in EnabledAddrs(bs) {
      var i :| 0 <= i < |bs| && bs[i].enabled && bs[i].addr == t;
      assert bs'[i] in bs';
    }
    if t in EnabledAddrs(bs') {
      var i :| 0 <= i < |bs'| && bs'[i].enabled && bs'[i].addr == t;
      assert bs[i] in bs;
    }
  }

  /** With every breakpoint gone, code memory is the image again. */
  lemma EmptyOverlay(image: Code, code: Code)
    ensures Overlay(image, [], {}, code) <==> code == image
  {
    assert Patch(image, {}) == image;
  }

  /** A new breakpoint's record is right exactly when no armed one already covers the address
      (or the program's own byte there is the trap byte): `break` does not reject duplicates. */
  lemma BreakSavesOriginalIff(image: Code, bs: seq<Breakpoint>, code: Code, bp: Breakpoint, a: Addr)
    requires Overlay(image, bs, {}, code) && a in image
    ensures Enable(code, bp, a).Some?
    ensures Enable(code, bp, a).value.1.saved == image[a] <==>
              a !in EnabledAddrs(bs) || image[a] == TRAP_BYTE
  {
  }

  /** What goes wrong otherwise: two breakpoints on one address, deleted first-set first,
      leave the trap byte in the program. */
  lemma DuplicateBreakpointsCorrupt()
    ensures exists image: Code, a: Addr, bp: Breakpoint ::
              && a in image
              && var (c1, b1) := Enable(image, bp, a).value;
              var (c2, b2) := Enable(c1, bp, a).value;
              var (c3, _) := Disable(c2, b1).value;
              Disable(c3, b2).value.0 != image
  {
    var image: Code := map[0 := 0x90];
    var bp := Breakpoint(0, 0, false, "");
    var (c1, b1) := Enable(image, bp, 0).value;
    var (c2, b2) := Enable(c1, bp, 0).value;
    var (c3, b3) := Disable(c2, b1).value;
    assert Disable(c3, b2).value.0[0] == 0xcc;
    assert 0 in image && Disable(c3, b2).value.0 != image;
  }
}
