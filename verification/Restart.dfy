/** `run` again: breakpoints are resolved anew in a process loaded at another address
    (src/debugger.c, cdbg_run and cmd_break). */
module Restart {
  import opened Basics
  import opened Machine
  import BP = Breakpoints
  import opened Sessions
  import opened LineTable
  import opened LineProgram
  import TableCommands

  /** The argument of `break`, parsed. */
  datatype Spec = FileLine(file: string, line: nat) | Hex(addr: Word) | Number(n: Word) | Symbol(name: string)

  datatype Sym = Sym(address: Word, kind: char, name: string)

  datatype Symbols = Symbols(entries: seq<Sym>, slide: Word)

  /** Lookup adds the leading underscore the linker adds. */
  function FindSymbol(syms: seq<Sym>, name: string): (r: Option<Sym>)
    ensures r.Some? ==> r.value in syms
  {
    if syms == [] then None
    else if syms[0].name == (if name != "" && name[0] == '_' then name else "_" + name) then Some(syms[0])
    else FindSymbol(syms[1..], name)
  }

  /** A symbol is found by its name with or without the leading underscore: the first entry that has it. */
  lemma {:induction false} FindSymbolLaw(syms: seq<Sym>, name: string)
    requires name != "" && name[0] != '_'
    ensures FindSymbol(syms, name) == FindSymbol(syms, "_" + name)
    ensures match FindSymbol(syms, name)
            case None => forall i :: 0 <= i < |syms| ==> syms[i].name != "_" + name
            case Some(sym) =>
              exists i :: 0 <= i < |syms| && syms[i] == sym && sym.name == "_" + name
                          && forall j :: 0 <= j < i ==> syms[j].name != "_" + name
  {
    if syms != [] {
      FindSymbolLaw(syms[1..], name);
      if syms[0].name == "_" + name {
        assert FindSymbol(syms, name) == Some(syms[0]);
      } else if FindSymbol(syms, name).Some? {
        var sym := FindSymbol(syms, name).value;
        var i :| 0 <= i < |syms| - 1 && syms[1..][i] == sym && sym.name == "_" + name
                 && forall j :: 0 <= j < i ==> syms[1..][j].name != "_" + name;
        assert syms[i + 1] == sym;
        forall j | 0 <= j < i + 1 ensures syms[j].name != "_" + name {
          assert j > 0 ==> syms[j] == syms[1..][j - 1];
        }
      } else {
        forall i | 0 <= i < |syms| ensures syms[i].name != "_" + name {
          assert i > 0 ==> syms[i] == syms[1..][i - 1];
        }
      }
    }
  }

  ghost function LineAddress(t: Table, r: Option<nat>): Option<Word>
    requires r.Some? ==> r.value < |t.entries|
  {
    if r.None? then None else Some(Runtime(t, r.value))
  }

  /** A symbol stands for the first line after its address, if there is one. */
  ghost function SymbolAddress(t: Table, slide: Word, sym: Sym): Option<Word> {
    if sym.address == 0 || sym.kind == 'U' || sym.kind == 'u' then None
    else
      var addr := Wrap(sym.address + slide);
      var next := NextLine(t, addr);
      if next.Some? then LineAddress(t, next) else Some(addr)
  }

  /** The runtime address `break` sets its trap at. */
  ghost function Resolve(t: Table, syms: Symbols, spec: Spec): Option<Word> {
    match spec
    case FileLine(file, line) =>
      if file == "" || line == 0 then None
      else LineAddress(t, LineScan(t, file, line % TWO_TO_THE_32, |t.entries|))
    case Hex(addr) => Some(addr)
    case Number(n) =>
      var r := UniqueLine(t, n % TWO_TO_THE_32);
      if r.Some? then LineAddress(t, r) else Some(n)
    case Symbol(name) =>
      match FindSymbol(syms.entries, name)
      case None => None
      case Some(sym) => SymbolAddress(t, syms.slide, sym)
  }

  /** A symbol is resolved exactly when it has an address and is not undefined: to the nearest following
      address that begins another line of the file its own address is in, or else to its own. */
  lemma SymbolLaw(t: Table, syms: Symbols, slide: Word, name: string)
    requires Loads(t, syms, slide)
    ensures var found := FindSymbol(syms.entries, name);
            && (Resolve(t, syms, Symbol(name)).Some? <==>
                  found.Some? && found.value.address != 0 && found.value.kind != 'U' && found.value.kind != 'u')
            && (Resolve(t, syms, Symbol(name)).Some? ==>
                  LandsAt(t, slide, found.value.address + slide, Resolve(t, syms, Symbol(name)).value))
  {
    hide Runtime, LandsAt, NextLine, FindSymbol;
    var found := FindSymbol(syms.entries, name);
    if Resolve(t, syms, Symbol(name)).Some? {
      LandsAtNext(t, syms, slide, found.value.address + slide);
    }
  }

  /** Entry `i` begins another line than entry `c`, of the same file, after `at`. */
  predicate BeginsAfter(t: Table, slide: Word, at: nat, c: nat, i: nat)
    requires c < |t.entries| && i < |t.entries|
  {
    t.entries[i].file == t.entries[c].file && t.entries[i].line != t.entries[c].line && t.entries[i].address + slide > at
  }

  /** Where a trap for code at `at` lands, `c` being the entry that covers it. */
  ghost predicate LandsFrom(t: Table, slide: Word, at: Word, c: nat, addr: Word)
    requires c < |t.entries|
  {
    if forall i :: 0 <= i < |t.entries| ==> !BeginsAfter(t, slide, at, c, i) then addr == at
    else
      && (exists i :: 0 <= i < |t.entries| && BeginsAfter(t, slide, at, c, i) && addr == t.entries[i].address + slide)
      && (forall i :: 0 <= i < |t.entries| && BeginsAfter(t, slide, at, c, i) ==> addr <= t.entries[i].address + slide)
  }

  ghost predicate LandsAt(t: Table, slide: Word, at: Word, addr: Word) {
    && (forall c: nat :: Covers(t, at, c) ==> LandsFrom(t, slide, at, c, addr))
    && ((forall c: nat :: !Covers(t, at, c)) ==> addr == at)
  }

  lemma LandsAtNext(t: Table, syms: Symbols, slide: Word, at: Word)
    requires Loads(t, syms, slide)
    ensures LandsAt(t, slide, at, if NextLine(t, at).Some? then Runtime(t, NextLine(t, at).value) else at)
  {
    hide Runtime, Covers;
    forall i | 0 <= i < |t.entries| ensures Runtime(t, i) == t.entries[i].address + slide {
      RuntimeIs(t, syms, slide, i);
    }
    forall c: nat ensures Lookup(t, at, |t.entries|) == Some(c) <==> Covers(t, at, c) {
      LookupIff(t, at, c);
    }
    if Lookup(t, at, |t.entries|).Some? {
      var c := Lookup(t, at, |t.entries|).value;
      NextScanLeast(t, at, c, |t.entries|);
      forall i | 0 <= i < |t.entries| ensures BeginsAfter(t, slide, at, c, i) <==> Follows(t, at, c, i) {
      }
    }
  }

  lemma RuntimeIs(t: Table, syms: Symbols, slide: Word, i: nat)
    requires Loads(t, syms, slide) && i < |t.entries|
    ensures Runtime(t, i) == t.entries[i].address + slide
  {
  }

  /** The spec names a place in the program, not a number taken as an address. */
  ghost predicate Relocatable(t: Table, spec: Spec) {
    match spec
    case FileLine(_, _) => true
    case Symbol(_) => true
    case Number(n) => UniqueLine(t, n % TWO_TO_THE_32).Some?
    case Hex(_) => false
  }

  /** Loading at `slide` wraps no address of the program. */
  ghost predicate Loads(t: Table, syms: Symbols, slide: Word) {
    && t.slide == slide && syms.slide == slide
    && (forall i :: 0 <= i < |t.entries| ==> t.entries[i].address + slide < TWO_TO_THE_64)
    && (forall i :: 0 <= i < |syms.entries| ==> syms.entries[i].address + slide < TWO_TO_THE_64)
  }

  /** The same program, loaded at `slide` and at `slide'`. */
  ghost predicate Reloaded(t: Table, syms: Symbols, slide: Word, t': Table, syms': Symbols, slide': Word) {
    && t'.entries == t.entries && syms'.entries == syms.entries
    && Loads(t, syms, slide) && Loads(t', syms', slide')
  }

  ghost predicate Shifted(r: Option<Word>, slide: Word, r': Option<Word>, slide': Word) {
    (r.Some? <==> r'.Some?) && (r.Some? ==> r.value - slide == r'.value - slide')
  }

  lemma RuntimeShifts(t: Table, syms: Symbols, slide: Word, t': Table, syms': Symbols, slide': Word, i: nat)
    requires Reloaded(t, syms, slide, t', syms', slide') && i < |t.entries|
    ensures Runtime(t, i) == t.entries[i].address + slide && Runtime(t', i) == t.entries[i].address + slide'
  {
  }

  lemma {:induction false} LookupShifts(t: Table, syms: Symbols, slide: Word, t': Table, syms': Symbols, slide': Word,
                                        link: nat, n: nat)
    requires Reloaded(t, syms, slide, t', syms', slide') && n <= |t.entries|
    requires link + slide < TWO_TO_THE_64 && link + slide' < TWO_TO_THE_64
    ensures Lookup(t, link + slide, n) == Lookup(t', link + slide', n)
  {
    hide Reloaded;
    if n > 0 {
      LookupShifts(t, syms, slide, t', syms', slide', link, n - 1);
      RuntimeShifts(t, syms, slide, t', syms', slide', n - 1);
      var best := Lookup(t, link + slide, n - 1);
      if best.Some? {
        RuntimeShifts(t, syms, slide, t', syms', slide', best.value);
      }
    }
  }

  lemma {:induction false} NextScanShifts(t: Table, syms: Symbols, slide: Word, t': Table, syms': Symbols, slide': Word,
                                          link: nat, current: nat, n: nat)
    requires Reloaded(t, syms, slide, t', syms', slide') && n <= |t.entries| && current < |t.entries|
    requires link + slide < TWO_TO_THE_64 && link + slide' < TWO_TO_THE_64
    ensures NextScan(t, link + slide, current, n) == NextScan(t', link + slide', current, n)
  {
    hide Loads;
    if n > 0 {
      NextScanShifts(t, syms, slide, t', syms', slide', link, current, n - 1);
      RuntimeShifts(t, syms, slide, t', syms', slide', n - 1);
    }
  }

  lemma {:induction false} LineScanShifts(t: Table, t': Table, file: string, line: nat, n: nat)
    requires t'.entries == t.entries && n <= |t.entries|
    ensures LineScan(t, file, line, n) == LineScan(t', file, line, n)
  {
    if n > 0 {
      LineScanShifts(t, t', file, line, n - 1);
    }
  }

  lemma NextLineShifts(t: Table, syms: Symbols, slide: Word, t': Table, syms': Symbols, slide': Word, link: nat)
    requires Reloaded(t, syms, slide, t', syms', slide')
    requires link + slide < TWO_TO_THE_64 && link + slide' < TWO_TO_THE_64
    ensures NextLine(t, link + slide) == NextLine(t', link + slide')
  {
    LookupShifts(t, syms, slide, t', syms', slide', link, |t.entries|);
    var current := Lookup(t, link + slide, |t.entries|);
    if current.Some? {
      NextScanShifts(t, syms, slide, t', syms', slide', link, current.value, |t.entries|);
    }
  }

  lemma SymbolShifts(t: Table, syms: Symbols, slide: Word, t': Table, syms': Symbols, slide': Word, sym: Sym)
    requires Reloaded(t, syms, slide, t', syms', slide') && sym in syms.entries
    ensures Shifted(SymbolAddress(t, slide, sym), slide, SymbolAddress(t', slide', sym), slide')
  {
    hide Lookup, NextScan, LineScan;
    var link := sym.address;
    assert Wrap(link + slide) == link + slide && Wrap(link + slide') == link + slide';
    NextLineShifts(t, syms, slide, t', syms', slide', link);
    LineShifts(t, syms, slide, t', syms', slide', NextLine(t, link + slide));
  }

  lemma LineShifts(t: Table, syms: Symbols, slide: Word, t': Table, syms': Symbols, slide': Word, r: Option<nat>)
    requires Reloaded(t, syms, slide, t', syms', slide') && (r.Some? ==> r.value < |t.entries|)
    ensures Shifted(LineAddress(t, r), slide, LineAddress(t', r), slide')
  {
    if r.Some? {
      RuntimeShifts(t, syms, slide, t', syms', slide', r.value);
    }
  }

  /** A breakpoint keeps its link address across a reload exactly when its spec names a place in
      the program, or cannot be resolved, or the program was loaded where it was before. */
  lemma RestartKeepsIff(t: Table, syms: Symbols, slide: Word, t': Table, syms': Symbols, slide': Word, spec: Spec)
    requires Reloaded(t, syms, slide, t', syms', slide')
    ensures Shifted(Resolve(t, syms, spec), slide, Resolve(t', syms', spec), slide') <==>
              Relocatable(t, spec) || slide == slide'
    ensures Relocatable(t, spec) <==> Relocatable(t', spec)
  {
    match spec
    case FileLine(file, line) =>
      LineScanShifts(t, t', file, line % TWO_TO_THE_32, |t.entries|);
      LineShifts(t, syms, slide, t', syms', slide', LineScan(t, file, line % TWO_TO_THE_32, |t.entries|));
    case Hex(_) =>
    case Number(n) =>
      LineScanShifts(t, t', "", n % TWO_TO_THE_32, |t.entries|);
      LineShifts(t, syms, slide, t', syms', slide', UniqueLine(t, n % TWO_TO_THE_32));
    case Symbol(name) =>
      if FindSymbol(syms.entries, name).Some? {
        SymbolShifts(t, syms, slide, t', syms', slide', FindSymbol(syms.entries, name).value);
      }
  }

  /** Where a resolved spec is found after a reload: a place in the program moves with it, a number
      taken for an address stays. */
  lemma NewAddress(t: Table, syms: Symbols, slide: Word, t': Table, syms': Symbols, slide': Word, spec: Spec)
    requires Reloaded(t, syms, slide, t', syms', slide') && Resolve(t, syms, spec).Some?
    ensures Resolve(t', syms', spec).Some?
    ensures Resolve(t', syms', spec).value == Resolve(t, syms, spec).value + if Relocatable(t, spec) then slide' - slide else 0
  {
    RestartKeepsIff(t, syms, slide, t', syms', slide', spec);
  }

  /** The search behind `break`. */
  method ResolveBreak(t: Table, syms: Symbols, spec: Spec) returns (r: Option<Word>)
    ensures r == Resolve(t, syms, spec)
  {
    var entry: Option<nat>;
    match spec {
      case FileLine(file, line) =>
        if file == "" || line == 0 {
          return None;
        }
        entry := LookupLine(t, file, line % TWO_TO_THE_32);
        r := if entry.None? then None else Some(Runtime(t, entry.value));
      case Hex(addr) =>
        r := Some(addr);
      case Number(n) =>
        entry := LookupLineUnique(t, n % TWO_TO_THE_32);
        r := Some(if entry.None? then n else Runtime(t, entry.value));
      case Symbol(name) =>
        var sym := FindSymbol(syms.entries, name);
        if sym.None? || sym.value.address == 0 || sym.value.kind == 'U' || sym.value.kind == 'u' {
          return None;
        }
        var addr := Wrap(sym.value.address + syms.slide);
        entry := LookupNextLineAfterPc(t, addr);
        r := Some(if entry.None? then addr else Runtime(t, entry.value));
    }
  }

  // ----- the table after a restart -----

  /** The address `break` with this text sets a breakpoint at. */
  ghost function Resolver(parse: string -> Option<Spec>, t: Table, syms: Symbols): string -> Option<Addr> {
    text => match parse(text) case None => None case Some(spec) => Resolve(t, syms, spec)
  }

  /** The records `break` makes for the specs that resolve to mapped addresses, in order: a second one
      on an address saves the trap byte of the first. */
  ghost function Reinserted(specs: seq<string>, resolve: string -> Option<Addr>, image: Code): seq<BP.Breakpoint> {
    if specs == [] then []
    else
      var front := Reinserted(specs[..|specs| - 1], resolve, image);
      var spec := specs[|specs| - 1];
      match resolve(spec)
      case None => front
      case Some(a) =>
        if a !in image then front
        else front + [BP.Breakpoint(a, if a in BP.Addrs(front) then TRAP_BYTE else image[a], true, spec)]
  }

  ghost predicate Lands(resolve: string -> Option<Addr>, image: Code, spec: string) {
    resolve(spec).Some? && resolve(spec).value in image
  }

  /** The specs that still resolve to mapped addresses, in their order. */
  ghost function Kept(specs: seq<string>, resolve: string -> Option<Addr>, image: Code): seq<string> {
    if specs == [] then []
    else
      var front := Kept(specs[..|specs| - 1], resolve, image);
      if Lands(resolve, image, specs[|specs| - 1]) then front + [specs[|specs| - 1]] else front
  }

  function Specs(bs: seq<BP.Breakpoint>): seq<string> {
    seq(|bs|, i requires 0 <= i < |bs| => bs[i].spec)
  }

  /** No two of the specs land on one address. */
  ghost predicate NoClash(specs: seq<string>, resolve: string -> Option<Addr>, image: Code) {
    forall i, j :: 0 <= i < j < |specs| && Lands(resolve, image, specs[i]) && Lands(resolve, image, specs[j]) ==>
      resolve(specs[i]) != resolve(specs[j])
  }

  lemma {:induction false} KeptAll(specs: seq<string>, resolve: string -> Option<Addr>, image: Code)
    requires forall s :: s in specs ==> Lands(resolve, image, s)
    ensures Kept(specs, resolve, image) == specs
  {
    if specs != [] {
      KeptAll(specs[..|specs| - 1], resolve, image);
      assert specs == specs[..|specs| - 1] + [specs[|specs| - 1]];
    }
  }

  /** The new table lists, in their old order, the specs that still resolve to mapped code, each armed
      at its new address. */
  lemma {:induction false} ReinsertedOrder(specs: seq<string>, resolve: string -> Option<Addr>, image: Code)
    ensures var bs := Reinserted(specs, resolve, image);
            && |bs| <= |specs| && Specs(bs) == Kept(specs, resolve, image)
            && forall b :: b in bs ==> b.enabled && b.addr in image && resolve(b.spec) == Some(b.addr)
  {
    if specs != [] {
      ReinsertedOrder(specs[..|specs| - 1], resolve, image);
    }
  }

  lemma {:induction false} ReinsertedAddrs(specs: seq<string>, resolve: string -> Option<Addr>, image: Code)
    ensures forall a :: a in BP.Addrs(Reinserted(specs, resolve, image)) <==>
              exists i :: 0 <= i < |specs| && Lands(resolve, image, specs[i]) && resolve(specs[i]) == Some(a)
  {
    if specs != [] {
      var front, last := specs[..|specs| - 1], specs[|specs| - 1];
      ReinsertedAddrs(front, resolve, image);
      var before, bs := Reinserted(front, resolve, image), Reinserted(specs, resolve, image);
      assert BP.Addrs(bs) == BP.Addrs(before) + if Lands(resolve, image, last) then {resolve(last).value} else {} by {
        if Lands(resolve, image, last) {
          assert bs == before + [bs[|before|]];
          assert forall b :: b in bs <==> b in before || b == bs[|before|];
        }
      }
      assert forall i :: 0 <= i < |front| ==> front[i] == specs[i];
    }
  }

  /** Every saved byte is the program's own, and no address repeats, exactly when no two specs clash. */
  lemma {:induction false} ReinsertedSoundIff(specs: seq<string>, resolve: string -> Option<Addr>, image: Code)
    ensures BP.Distinct(Reinserted(specs, resolve, image)) <==> NoClash(specs, resolve, image)
    ensures NoClash(specs, resolve, image) ==>
              forall b :: b in Reinserted(specs, resolve, image) ==> b.addr in image && b.saved == image[b.addr]
  {
    if specs != [] {
      var front, last := specs[..|specs| - 1], specs[|specs| - 1];
      ReinsertedSoundIff(front, resolve, image);
      ReinsertedAddrs(front, resolve, image);
      NoClashLast(specs, resolve, image);
      var before, bs := Reinserted(front, resolve, image), Reinserted(specs, resolve, image);
      if Lands(resolve, image, last) {
        DistinctLast(before, bs[|before|]);
        assert bs == before + [bs[|before|]];
      }
    }
  }

  lemma DistinctLast(bs: seq<BP.Breakpoint>, b: BP.Breakpoint)
    ensures BP.Distinct(bs + [b]) <==> BP.Distinct(bs) && b.addr !in BP.Addrs(bs)
  {
    var all := bs + [b];
    if BP.Distinct(all) {
      forall i, j | 0 <= i < j < |bs| ensures bs[i].addr != bs[j].addr {
        assert all[i] == bs[i] && all[j] == bs[j];
      }
      forall x | x in bs ensures x.addr != b.addr {
        var i :| 0 <= i < |bs| && bs[i] == x;
        assert all[i].addr != all[|bs|].addr;
      }
    }
    if BP.Distinct(bs) && b.addr !in BP.Addrs(bs) {
      forall i, j | 0 <= i < j < |all| ensures all[i].addr != all[j].addr {
        assert all[i] in bs;
      }
    }
  }

  lemma NoClashLast(specs: seq<string>, resolve: string -> Option<Addr>, image: Code)
    requires specs != []
    ensures var front, last := specs[..|specs| - 1], specs[|specs| - 1];
            NoClash(specs, resolve, image) <==>
              && NoClash(front, resolve, image)
              && (Lands(resolve, image, last) ==>
                    forall i :: 0 <= i < |front| && Lands(resolve, image, front[i]) ==> resolve(front[i]) != resolve(last))
  {
    var front := specs[..|specs| - 1];
    assert forall i :: 0 <= i < |front| ==> front[i] == specs[i];
  }

  // ----- the same breakpoints again -----

  /** The table's addresses are what its specs resolve to. */
  ghost predicate Resolved(bs: seq<BP.Breakpoint>, parse: string -> Option<Spec>, t: Table, syms: Symbols) {
    forall b :: b in bs ==> parse(b.spec).Some? && Resolve(t, syms, parse(b.spec).value) == Some(b.addr)
  }

  /** Code mapped in the program at one slide is mapped at the other. */
  ghost predicate Moved(image: Code, slide: Word, image': Code, slide': Word) {
    forall a :: a in image && a + slide' >= slide ==> a + slide' - slide in image'
  }

  /** The breakpoint was set on a place in the program. */
  ghost predicate IsPlace(b: BP.Breakpoint, parse: string -> Option<Spec>, t: Table)
    requires parse(b.spec).Some?
  {
    Relocatable(t, parse(b.spec).value)
  }

  lemma ResolvesTo(b: BP.Breakpoint, parse: string -> Option<Spec>, t: Table, syms: Symbols, slide: Word,
                   t': Table, syms': Symbols, slide': Word)
    requires Reloaded(t, syms, slide, t', syms', slide') && Resolved([b], parse, t, syms)
    ensures parse(b.spec).Some? && Resolver(parse, t', syms')(b.spec).Some?
    ensures Resolver(parse, t', syms')(b.spec).value == b.addr + if IsPlace(b, parse, t) then slide' - slide else 0
  {
    assert b in [b];
    NewAddress(t, syms, slide, t', syms', slide', parse(b.spec).value);
  }

  /** Two breakpoints of a table clash after a reload exactly when one is a place in the program, the
      other a number taken for an address that is mapped, and the first has moved onto the second. */
  lemma ClashIff(bs: seq<BP.Breakpoint>, parse: string -> Option<Spec>, t: Table, syms: Symbols, slide: Word,
                 t': Table, syms': Symbols, slide': Word, image': Code)
    requires Reloaded(t, syms, slide, t', syms', slide') && BP.Distinct(bs) && Resolved(bs, parse, t, syms)
    ensures NoClash(Specs(bs), Resolver(parse, t', syms'), image') <==>
              forall i, j :: (
                && 0 <= i < |bs| && 0 <= j < |bs| && bs[j].addr in image'
                && IsPlace(bs[i], parse, t) && !IsPlace(bs[j], parse, t)) ==>
                bs[i].addr - slide + slide' != bs[j].addr
  {
    hide Resolver, Resolve, Reloaded, IsPlace;
    var resolve, specs := Resolver(parse, t', syms'), Specs(bs);
    forall i | 0 <= i < |bs|
      ensures parse(bs[i].spec).Some? && resolve(specs[i]).Some?
      ensures resolve(specs[i]).value == bs[i].addr + if IsPlace(bs[i], parse, t) then slide' - slide else 0
    {
      ResolvesTo(bs[i], parse, t, syms, slide, t', syms', slide');
    }
    if NoClash(specs, resolve, image') {
      forall i, j | 0 <= i < |bs| && 0 <= j < |bs| && bs[j].addr in image' && IsPlace(bs[i], parse, t) && !IsPlace(bs[j], parse, t)
        ensures bs[i].addr - slide + slide' != bs[j].addr
      {
        if resolve(specs[i]) == resolve(specs[j]) {
          if i < j { } else if j < i { }
        }
      }
    }
  }

  // A program of one line at link address 16, loaded first at 0 and then at 16; a breakpoint on the line,
  // and one on the number the line is loaded at the second time.

  const ONE_LINE := [Entry(16, 1, 0, "a.c")]

  const LINE_AND_NUMBER := [BP.Breakpoint(16, 0x90, true, "a.c:1"), BP.Breakpoint(32, 0x90, true, "0x20")]

  function ParseTwo(text: string): Option<Spec> {
    if text == "a.c:1" then Some(FileLine("a.c", 1)) else if text == "0x20" then Some(Hex(32)) else None
  }

  function LoadedAt(slide: Word): Table {
    Table(ONE_LINE, slide)
  }

  lemma OneLineAt(slide: Word)
    requires slide <= 16
    ensures Loads(LoadedAt(slide), Symbols([], slide), slide) && LoadedAt(slide).entries == ONE_LINE
    ensures Resolve(LoadedAt(slide), Symbols([], slide), FileLine("a.c", 1)) == Some(16 + slide)
  {
    var t := LoadedAt(slide);
    assert LineScan(t, "a.c", 1, 0) == None;
    assert FileMatches("a.c", "a.c") by { assert "a.c" <= "a.c"[0..]; }
    assert LineScan(t, "a.c", 1, 1) == Some(0);
  }

  /** Both breakpoints were right before the restart; after it they are on one address, and the second has
      saved the trap byte of the first. */
  lemma RestartClashes()
    ensures var (t, t') := (LoadedAt(0), LoadedAt(16));
            var (syms, syms') := (Symbols([], 0), Symbols([], 16));
            var image' := map[32 := 0x90 as Byte];
            && Reloaded(t, syms, 0, t', syms', 16)
            && BP.Distinct(LINE_AND_NUMBER) && Resolved(LINE_AND_NUMBER, ParseTwo, t, syms)
            && !NoClash(Specs(LINE_AND_NUMBER), Resolver(ParseTwo, t', syms'), image')
            && Reinserted(Specs(LINE_AND_NUMBER), Resolver(ParseTwo, t', syms'), image') ==
               [BP.Breakpoint(32, 0x90, true, "a.c:1"), BP.Breakpoint(32, TRAP_BYTE, true, "0x20")]
  {
    hide BP.Distinct, Reinserted, NoClash, LoadedAt;
    OneLineAt(0);
    OneLineAt(16);
    BothTexts(0);
    BothTexts(16);
    var specs, resolve, image' := Specs(LINE_AND_NUMBER), Resolver(ParseTwo, LoadedAt(16), Symbols([], 16)), map[32 := 0x90 as Byte];
    assert specs == ["a.c:1", "0x20"];
    TwoOnOne(specs[0], specs[1], resolve, image', 32);
  }

  lemma BothTexts(slide: Word)
    requires slide <= 16
    ensures var resolve := Resolver(ParseTwo, LoadedAt(slide), Symbols([], slide));
            resolve("a.c:1") == Some(16 + slide) && resolve("0x20") == Some(32)
    ensures BP.Distinct(LINE_AND_NUMBER)
    ensures Resolved(LINE_AND_NUMBER, ParseTwo, LoadedAt(0), Symbols([], 0))
  {
    hide LoadedAt;
    OneLineAt(slide);
    OneLineAt(0);
    assert "a.c:1"[0] != "0x20"[0];
    assert ParseTwo("a.c:1") == Some(FileLine("a.c", 1)) && ParseTwo("0x20") == Some(Hex(32));
    var resolve := Resolver(ParseTwo, LoadedAt(slide), Symbols([], slide));
    assert resolve("a.c:1") == Resolve(LoadedAt(slide), Symbols([], slide), FileLine("a.c", 1));
    assert resolve("0x20") == Resolve(LoadedAt(slide), Symbols([], slide), Hex(32));
  }

  lemma TwoOnOne(first: string, second: string, resolve: string -> Option<Addr>, image: Code, a: Addr)
    requires resolve(first) == resolve(second) == Some(a) && a in image
    ensures !NoClash([first, second], resolve, image)
    ensures Reinserted([first, second], resolve, image) ==
            [BP.Breakpoint(a, image[a], true, first), BP.Breakpoint(a, TRAP_BYTE, true, second)]
  {
    var specs := [first, second];
    assert specs[..1] == [first] && [first][..0] == [];
    var front := Reinserted([first], resolve, image);
    assert Reinserted([first][..0], resolve, image) == [] && a !in BP.Addrs([]) && [first][0] == first;
    assert front == [] + [BP.Breakpoint(a, image[a], true, first)];
    assert front == [BP.Breakpoint(a, image[a], true, first)];
    assert front[0] in front;
    assert Lands(resolve, image, specs[0]) && Lands(resolve, image, specs[1]) && resolve(specs[0]) == resolve(specs[1]);
  }

  /** A table of places in the program comes back whole: the same specs in the same order, armed at the
      same link addresses, and none on top of another. */
  lemma RestartMoves(bs: seq<BP.Breakpoint>, parse: string -> Option<Spec>, t: Table, syms: Symbols, slide: Word,
                     t': Table, syms': Symbols, slide': Word, image: Code, image': Code)
    requires Reloaded(t, syms, slide, t', syms', slide') && BP.Distinct(bs) && Resolved(bs, parse, t, syms)
    requires (forall b :: b in bs ==> b.addr in image && IsPlace(b, parse, t)) && Moved(image, slide, image', slide')
    ensures NoClash(Specs(bs), Resolver(parse, t', syms'), image')
    ensures var bs' := Reinserted(Specs(bs), Resolver(parse, t', syms'), image');
            && |bs'| == |bs|
            && forall i :: 0 <= i < |bs| ==>
                 && bs'[i].spec == bs[i].spec && bs'[i].enabled
                 && bs'[i].addr - slide' == bs[i].addr - slide
                 && bs'[i].addr in image' && bs'[i].saved == image'[bs'[i].addr]
  {
    hide Resolver, Resolve, Reloaded, Reinserted, Kept;
    var resolve, specs := Resolver(parse, t', syms'), Specs(bs);
    ClashIff(bs, parse, t, syms, slide, t', syms', slide', image');
    forall i | 0 <= i < |bs|
      ensures Lands(resolve, image', specs[i]) && resolve(specs[i]).value - slide' == bs[i].addr - slide
    {
      ResolvesTo(bs[i], parse, t, syms, slide, t', syms', slide');
    }
    KeptAll(specs, resolve, image');
    ReinsertedOrder(specs, resolve, image');
    ReinsertedSoundIff(specs, resolve, image');
    var bs' := Reinserted(specs, resolve, image');
    forall i | 0 <= i < |bs|
      ensures bs'[i].spec == bs[i].spec && bs'[i].enabled && bs'[i].addr in image'
      ensures bs'[i].addr - slide' == bs[i].addr - slide && bs'[i].saved == image'[bs'[i].addr]
    {
      assert bs'[i] in bs' && Specs(bs')[i] == specs[i];
    }
  }

  /** `run`: both tables are cleared and every saved spec set again in the new process. */
  method Rerun(d: Session, code: Code, core: Core, lines: Addr -> Option<Location>, parse: string -> Option<Spec>, t: Table, syms: Symbols)
    requires d.count <= d.table.Length == BP.MAX_BREAKPOINTS && Local(d.isa)
    modifies d, d.table
    ensures d.count <= d.table.Length && d.core == core && d.image == code && d.lineAt == lines && d.watches == []
    ensures d.requests == old(d.requests) && d.state == Stopped
    ensures d.Bps() == Reinserted(Specs(old(d.Bps())), Resolver(parse, t, syms), code)
    ensures d.code == Patch(code, BP.Addrs(d.Bps()))
    ensures d.AtPrompt() <==> NoClash(Specs(old(d.Bps())), Resolver(parse, t, syms), code)
  {
    hide Reinserted, Resolver, Patch, NoClash;
    ghost var specs, resolve := Specs(d.Bps()), Resolver(parse, t, syms);
    var saved := SaveSpecs(d);
    d.count := 0;
    d.watches := [];
    d.image := code;
    d.code := code;
    d.core := core;
    d.lineAt := lines;
    d.state := Stopped;
    NothingYet(code, resolve);
    assert d.Bps() == [] && saved[..0] == [];
    var i := 0;
    while i < |saved|
      invariant i <= |saved| && d.count <= d.table.Length && d.core == core && d.image == code && d.state == Stopped
      invariant d.watches == [] && d.lineAt == lines && d.requests == old(d.requests)
      invariant d.Bps() == Reinserted(saved[..i], resolve, code) && d.code == Patch(code, BP.Addrs(d.Bps()))
    {
      Reinsert(d, saved, i, parse, t, syms);
      i := i + 1;
    }
    assert saved[..i] == saved;
    ReinsertedOrder(saved, resolve, code);
    ReinsertedSoundIff(saved, resolve, code);
    OkIff(code, d.Bps(), d.code);
  }

  lemma NothingYet(code: Code, resolve: string -> Option<Addr>)
    ensures Patch(code, BP.Addrs([])) == code && Reinserted([], resolve, code) == []
  {
  }

  lemma OkIff(image: Code, bs: seq<BP.Breakpoint>, code: Code)
    requires code == Patch(image, BP.Addrs(bs)) && forall b :: b in bs ==> b.enabled && b.addr in image
    requires BP.Distinct(bs) ==> forall b :: b in bs ==> b.saved == image[b.addr]
    ensures BP.Overlay(image, bs, {}, code) <==> BP.Distinct(bs)
  {
    assert BP.EnabledAddrs(bs) + {} == BP.Addrs(bs);
  }

  method SaveSpecs(d: Session) returns (saved: seq<string>)
    requires d.count <= d.table.Length
    ensures saved == Specs(d.Bps())
  {
    saved := [];
    var i := 0;
    while i < d.count
      invariant i <= d.count && saved == Specs(d.Bps())[..i]
    {
      saved := saved + [d.table[i].spec];
      i := i + 1;
    }
  }

  lemma ReinsertedNext(specs: seq<string>, i: nat, resolve: string -> Option<Addr>, image: Code)
    requires i < |specs|
    ensures var front := Reinserted(specs[..i], resolve, image);
            Reinserted(specs[..i + 1], resolve, image) ==
            if !Lands(resolve, image, specs[i]) then front
            else var a := resolve(specs[i]).value;
                 front + [BP.Breakpoint(a, if a in BP.Addrs(front) then TRAP_BYTE else image[a], true, specs[i])]
  {
    assert specs[..i + 1][..i] == specs[..i];
  }

  lemma Resolves(parse: string -> Option<Spec>, t: Table, syms: Symbols, text: string)
    ensures Resolver(parse, t, syms)(text) == if parse(text).None? then None else Resolve(t, syms, parse(text).value)
  {
  }

  lemma PatchedByte(image: Code, addrs: set<Addr>)
    ensures Patch(image, addrs).Keys == image.Keys
    ensures forall a :: a in image ==> Patch(image, addrs)[a] == if a in addrs then TRAP_BYTE else image[a]
  {
  }

  lemma PatchMore(image: Code, bs: seq<BP.Breakpoint>, b: BP.Breakpoint)
    requires b.addr in image
    ensures Patch(image, BP.Addrs(bs))[b.addr := TRAP_BYTE] == Patch(image, BP.Addrs(bs + [b]))
  {
    assert BP.Addrs(bs + [b]) == BP.Addrs(bs) + {b.addr};
  }

  method Reinsert(d: Session, saved: seq<string>, i: nat, parse: string -> Option<Spec>, t: Table, syms: Symbols)
    requires d.count <= d.table.Length == BP.MAX_BREAKPOINTS && i < |saved| <= BP.MAX_BREAKPOINTS
    requires d.Bps() == Reinserted(saved[..i], Resolver(parse, t, syms), d.image)
    requires d.code == Patch(d.image, BP.Addrs(d.Bps()))
    modifies d`code, d`count, d.table
    ensures d.count <= d.table.Length && d.Bps() == Reinserted(saved[..i + 1], Resolver(parse, t, syms), d.image)
    ensures d.code == Patch(d.image, BP.Addrs(d.Bps()))
  {
    hide Reinserted, Resolver, Resolve, Patch;
    ghost var bs, resolve := d.Bps(), Resolver(parse, t, syms);
    ReinsertedNext(saved, i, resolve, d.image);
    ReinsertedOrder(saved[..i], resolve, d.image);
    Resolves(parse, t, syms, saved[i]);
    PatchedByte(d.image, BP.Addrs(bs));
    var spec := parse(saved[i]);
    if spec.None? {
      return;
    }
    var addr := ResolveBreak(t, syms, spec.value);
    if addr.None? {
      return;
    }
    var rc := TableCommands.Break(d, addr.value, saved[i]);
    if rc == 0 {
      PatchMore(d.image, bs, d.Bps()[|bs|]);
    }
  }

  /** `run` again on a table of places in the program: the session is whole, and every breakpoint is
      where it was in the program. */
  method RunAgain(d: Session, code: Code, core: Core, lines: Addr -> Option<Location>, parse: string -> Option<Spec>,
                  t': Table, syms': Symbols, ghost t: Table, ghost syms: Symbols, ghost slide: Word, ghost slide': Word)
    requires d.Ok({}) && Reloaded(t, syms, slide, t', syms', slide') && Resolved(d.Bps(), parse, t, syms)
    requires (forall b :: b in d.Bps() ==> IsPlace(b, parse, t)) && Moved(d.image, slide, code, slide')
    modifies d, d.table
    ensures d.AtPrompt() && d.core == core && d.image == code && |d.Bps()| == |old(d.Bps())|
    ensures forall i :: 0 <= i < |d.Bps()| ==>
              && d.Bps()[i].spec == old(d.Bps())[i].spec && d.Bps()[i].enabled
              && d.Bps()[i].addr - slide' == old(d.Bps())[i].addr - slide
  {
    RestartMoves(d.Bps(), parse, t, syms, slide, t', syms', slide', d.image, code);
    Rerun(d, code, core, lines, parse, t', syms');
  }
}
