/** Watchpoint records and the value they watch. */
module WatchTable {
  import opened Basics

  datatype Mode = Write | Access

  /** The widths debug registers can watch. */
  type Width = n: nat | n == 1 || n == 2 || n == 4 || n == 8 witness 1

  datatype Watchpoint = Watchpoint(enabled: bool, addr: Word, size: Width, oldValue: Word, mode: Mode)

  const MAX_WATCHPOINTS: nat := 4

  lemma WidthFitsWord(w: Width)
    ensures Pow256(w) <= TWO_TO_THE_64
  {
    Pow256Word();
  }

  /** `n` bytes read little-endian, when all of them are mapped. */
  function ReadLittle(data: map<nat, Byte>, addr: nat, n: nat): (r: Option<nat>)
    ensures r.Some? ==> r.value < Pow256(n)
    decreases n, addr
  {
    if n == 0 then Some(0)
    else if addr !in data then None
    else match ReadLittle(data, addr + 1, n - 1)
      case None => None
      case Some(rest) => Some(data[addr] + 256 * rest)
  }

  predicate Readable(data: map<nat, Byte>, addr: nat, n: nat) {
    forall a :: addr <= a < addr + n ==> a in data
  }

  /** Mapped bytes that are all zero. */
  predicate Zeros(data: map<nat, Byte>, lo: nat, hi: nat) {
    forall a :: lo <= a < hi ==> a in data && data[a] == 0
  }

  lemma {:induction false} ReadableIff(data: map<nat, Byte>, addr: nat, n: nat)
    ensures ReadLittle(data, addr, n).Some? <==> Readable(data, addr, n)
    decreases n
  {
    if n > 0 {
      ReadableIff(data, addr + 1, n - 1);
    }
  }

  /** A wider read gives the same exactly when the narrower one fails too, or the extra bytes are zero. */
  lemma {:induction false} WiderReadIff(data: map<nat, Byte>, addr: nat, n: nat, m: nat)
    requires n <= m
    ensures ReadLittle(data, addr, m) == ReadLittle(data, addr, n) <==>
              !Readable(data, addr, n) || Zeros(data, addr + n, addr + m)
    decreases m
  {
    ReadableIff(data, addr, n);
    ReadableIff(data, addr, m);
    if m > 0 {
      WiderReadIff(data, addr + 1, if n == 0 then 0 else n - 1, m - 1);
      ReadableIff(data, addr + 1, m - 1);
    }
  }

  /** The bytes at `addr` to `addr + n` are in both memories the same. */
  predicate Unaltered(data: map<nat, Byte>, data': map<nat, Byte>, addr: nat, n: nat) {
    forall a :: addr <= a < addr + n ==> (a in data <==> a in data') && (a in data ==> data[a] == data'[a])
  }

  lemma {:induction false} SameRead(data: map<nat, Byte>, data': map<nat, Byte>, addr: nat, n: nat)
    requires Unaltered(data, data', addr, n)
    ensures ReadLittle(data, addr, n) == ReadLittle(data', addr, n)
    decreases n
  {
    if n > 0 {
      SameRead(data, data', addr + 1, n - 1);
    }
  }

  /** A watched value that can be read and differs from the one last seen. */
  predicate Changed(data: map<nat, Byte>, w: Watchpoint) {
    && w.enabled
    && var current := ReadLittle(data, w.addr, w.size);
    current.Some? && current.value != w.oldValue
  }

  /** The table once the changed value of entry `i` has been reported: later checks compare with it. */
  function Noted(data: map<nat, Byte>, ws: seq<Watchpoint>, i: nat): seq<Watchpoint>
    requires i < |ws| && Changed(data, ws[i])
  {
    WidthFitsWord(ws[i].size);
    ws[i := ws[i].(oldValue := ReadLittle(data, ws[i].addr, ws[i].size).value)]
  }

  lemma SameDigits(d: Byte, rest: nat, d': Byte, rest': nat)
    ensures d + 256 * rest == d' + 256 * rest' <==> d == d' && rest == rest'
  {
  }

  lemma {:induction false} SameReadIff(data: map<nat, Byte>, data': map<nat, Byte>, addr: nat, n: nat)
    requires Readable(data, addr, n) && Readable(data', addr, n)
    ensures ReadLittle(data, addr, n) == ReadLittle(data', addr, n) <==>
              forall a :: addr <= a < addr + n ==> data[a] == data'[a]
    decreases n
  {
    if n > 0 {
      SameReadIff(data, data', addr + 1, n - 1);
      ReadableIff(data, addr + 1, n - 1);
      ReadableIff(data', addr + 1, n - 1);
      var rest, rest' := ReadLittle(data, addr + 1, n - 1).value, ReadLittle(data', addr + 1, n - 1).value;
      assert ReadLittle(data, addr, n) == Some(data[addr] + 256 * rest);
      assert ReadLittle(data', addr, n) == Some(data'[addr] + 256 * rest');
      SameDigits(data[addr], rest, data'[addr], rest');
    }
  }

  /** A watchpoint that remembers what was there fires exactly when it is enabled, its bytes can be read,
      and one of them has become another. */
  lemma ChangedIff(data: map<nat, Byte>, w: Watchpoint, data': map<nat, Byte>)
    requires ReadLittle(data, w.addr, w.size) == Some(w.oldValue as int)
    ensures Changed(data', w) <==>
              w.enabled && Readable(data', w.addr, w.size) && !Unaltered(data, data', w.addr, w.size)
  {
    ReadableIff(data, w.addr, w.size);
    ReadableIff(data', w.addr, w.size);
    if Readable(data', w.addr, w.size) {
      SameReadIff(data, data', w.addr, w.size);
    }
  }

  /** So it is for a watchpoint once it has been reported. */
  lemma NotedChangesIff(data: map<nat, Byte>, ws: seq<Watchpoint>, i: nat, data': map<nat, Byte>)
    requires i < |ws| && Changed(data, ws[i])
    ensures Changed(data', Noted(data, ws, i)[i]) <==>
              Readable(data', ws[i].addr, ws[i].size) && !Unaltered(data, data', ws[i].addr, ws[i].size)
  {
    ChangedIff(data, Noted(data, ws, i)[i], data');
  }
}
