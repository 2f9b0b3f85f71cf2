/** The ARP cache (FreeRTOS_ARP.c, addresses of other networks are not stored): a small table of
    rows that are rewritten, aged and cleared in place. */
module ArpCache {
  import opened Common

  type Ip = bv32

  const MAX_AGE: byte := 150
  const MAX_RETRANSMISSIONS: byte := 5

  datatype Row = Row(ip: Ip, mac: nat, age: byte, valid: bool)

  const CLEAR := Row(0, 0, 0, false)

  // ---- Searching for the rows of an address ---------------------------------------------

  /** What the walk over the table has found: the row of both addresses; or the row of the IP
      address, the row of the MAC address, and the oldest of the other rows. */
  datatype Found =
    | Exact(x: nat)
    | Rows(ipRow: Option<nat>, macRow: Option<nat>, oldest: nat, minAge: byte)

  function Look(rows: seq<Row>, x: nat, ip: Ip, mac: Option<nat>, f: Found): Found
    requires x < |rows| && f.Rows?
  {
    var r := rows[x];
    if r.ip == ip then
      if mac == Some(r.mac) then Exact(x) else f.(ipRow := Some(x))
    else if mac == Some(r.mac) then f.(macRow := Some(x))
    else if r.age < f.minAge then f.(oldest := x, minAge := r.age)
    else f
  }

  /** The walk from row x on; without a MAC address it stops at the row of the IP address. */
  function Walk(rows: seq<Row>, x: nat, ip: Ip, mac: Option<nat>, f: Found): Found
    requires x <= |rows| && f.Rows?
    decreases |rows| - x
  {
    if x == |rows| then f
    else
      var g := Look(rows, x, ip, mac, f);
      if g.Exact? || (mac.None? && rows[x].ip == ip) then g
      else Walk(rows, x + 1, ip, mac, g)
  }

  const NOTHING := Rows(None, None, 0, 255)

  predicate Other(r: Row, ip: Ip, mac: Option<nat>) {
    r.ip != ip && mac != Some(r.mac)
  }

  /** What has been found says about the first n rows. */
  ghost predicate Sound(rows: seq<Row>, n: nat, ip: Ip, mac: Option<nat>, f: Found)
    requires n <= |rows|
  {
    match f
    case Exact(x) => x < |rows| && rows[x].ip == ip && mac == Some(rows[x].mac)
    case Rows(ipRow, macRow, oldest, minAge) =>
      && (forall k :: 0 <= k < n ==> !(rows[k].ip == ip && mac == Some(rows[k].mac)))
      && (ipRow.None? ==> forall k :: 0 <= k < n ==> rows[k].ip != ip)
      && (ipRow.Some? ==> ipRow.value < n && rows[ipRow.value].ip == ip)
      && (macRow.None? ==> forall k :: 0 <= k < n ==> mac != Some(rows[k].mac))
      && (macRow.Some? ==> macRow.value < n && mac == Some(rows[macRow.value].mac) && rows[macRow.value].ip != ip)
      && (forall k :: 0 <= k < n && Other(rows[k], ip, mac) ==> minAge <= rows[k].age)
      && (minAge < 255 ==> oldest < n && Other(rows[oldest], ip, mac) && rows[oldest].age == minAge)
  }

  lemma LookSound(rows: seq<Row>, x: nat, ip: Ip, mac: Option<nat>, f: Found)
    requires x < |rows| && f.Rows? && Sound(rows, x, ip, mac, f)
    ensures var g := Look(rows, x, ip, mac, f);
      Sound(rows, x + 1, ip, mac, g) && (g.Rows? && rows[x].ip == ip ==> g.ipRow.Some?)
  {}

  /** How far the walk has come: up to the end, unless it stopped at the row of the IP address. */
  lemma {:induction false} WalkSound(rows: seq<Row>, x: nat, ip: Ip, mac: Option<nat>, f: Found) returns (n: nat)
    requires x <= |rows| && f.Rows? && Sound(rows, x, ip, mac, f)
    ensures n <= |rows| && Sound(rows, n, ip, mac, Walk(rows, x, ip, mac, f))
    ensures n < |rows| ==> Walk(rows, x, ip, mac, f).Exact? || (mac.None? && Walk(rows, x, ip, mac, f).ipRow.Some?)
    decreases |rows| - x
  {
    hide Sound, Look;
    if x == |rows| {
      n := x;
    } else {
      var g := Look(rows, x, ip, mac, f);
      LookSound(rows, x, ip, mac, f);
      if g.Exact? || (mac.None? && rows[x].ip == ip) {
        n := x + 1;
      } else {
        n := WalkSound(rows, x + 1, ip, mac, g);
      }
    }
  }

  // ---- Refreshing -----------------------------------------------------------------------

  /** The row that is written when no row holds both addresses. */
  function Use(f: Found): nat
    requires f.Rows?
  {
    if f.macRow.Some? then f.macRow.value else if f.ipRow.Some? then f.ipRow.value else f.oldest
  }

  /** The row as it is written. */
  function Written(r: Row, ip: Ip, mac: Option<nat>, known: bool): Row {
    if mac.Some? then Row(ip, mac.value, MAX_AGE, true)
    else if known then r.(ip := ip)
    else r.(ip := ip, age := MAX_RETRANSMISSIONS, valid := false)
  }

  /** The table with a row cleared whose IP address has moved to another row. */
  function Cleared(rows: seq<Row>, f: Found): seq<Row>
    requires f.Rows? && (f.ipRow.Some? ==> f.ipRow.value < |rows|)
  {
    if f.macRow.Some? && f.ipRow.Some? then rows[f.ipRow.value := CLEAR] else rows
  }

  /** No age is more than the maximum, so the search always finds an oldest row. */
  predicate Bounded(rows: seq<Row>) {
    rows != [] && forall k :: 0 <= k < |rows| ==> rows[k].age <= MAX_AGE
  }

  lemma FoundInTable(rows: seq<Row>, ip: Ip, mac: Option<nat>) returns (n: nat)
    requires Bounded(rows)
    ensures var f := Walk(rows, 0, ip, mac, NOTHING);
      && n <= |rows| && Sound(rows, n, ip, mac, f)
      && (n < |rows| ==> f.Exact? || (mac.None? && f.ipRow.Some?))
      && (f.Rows? ==> Use(f) < |rows| && (f.ipRow.Some? ==> f.ipRow.value < |rows|))
  {
    n := WalkSound(rows, 0, ip, mac, NOTHING);
    var f := Walk(rows, 0, ip, mac, NOTHING);
    if f.Rows? && f.macRow.None? && f.ipRow.None? {
      assert Other(rows[0], ip, mac);
    }
  }

  lemma InTable(rows: seq<Row>, ip: Ip, mac: Option<nat>)
    requires Bounded(rows)
    ensures match Walk(rows, 0, ip, mac, NOTHING)
      case Exact(x) => x < |rows|
      case Rows(ipRow, macRow, oldest, minAge) =>
        && Use(Rows(ipRow, macRow, oldest, minAge)) < |rows|
        && (ipRow.Some? ==> ipRow.value < |rows|)
  {
    var n := FoundInTable(rows, ip, mac);
  }

  /** vARPRefreshCacheEntry for an address on the local network. */
  function Refreshed(rows: seq<Row>, ip: Ip, mac: Option<nat>): (r: seq<Row>)
    requires Bounded(rows)
    ensures |r| == |rows|
  {
    InTable(rows, ip, mac);
    match Walk(rows, 0, ip, mac, NOTHING)
    case Exact(x) => rows[x := rows[x].(age := MAX_AGE, valid := true)]
    case Rows(_, _, _, _) =>
      var f := Walk(rows, 0, ip, mac, NOTHING);
      var cleared := Cleared(rows, f);
      cleared[Use(f) := Written(cleared[Use(f)], ip, mac, f.ipRow.Some?)]
  }

  // ---- The table is an injective map ----------------------------------------------------

  /** No two rows share an IP address or a MAC address, zero apart. */
  ghost predicate Injective(rows: seq<Row>) {
    forall i, j :: 0 <= i < |rows| && 0 <= j < |rows| && i != j ==>
      && (rows[i].ip != 0 ==> rows[i].ip != rows[j].ip)
      && (rows[i].mac != 0 ==> rows[i].mac != rows[j].mac)
  }

  lemma WrittenInjective(rows: seq<Row>, use: nat, r: Row)
    requires Injective(rows) && use < |rows|
    requires forall k :: 0 <= k < |rows| && k != use ==>
      (r.ip != 0 ==> rows[k].ip != r.ip) && (r.mac != 0 ==> rows[k].mac != r.mac)
    ensures Injective(rows[use := r])
  {}

  lemma RefreshedInjective(rows: seq<Row>, ip: Ip, mac: Option<nat>)
    requires Bounded(rows) && Injective(rows)
    ensures Bounded(Refreshed(rows, ip, mac)) && Injective(Refreshed(rows, ip, mac))
  {
    var n := FoundInTable(rows, ip, mac);
    var f := Walk(rows, 0, ip, mac, NOTHING);
    match f
    case Exact(x) => WrittenInjective(rows, x, rows[x].(age := MAX_AGE, valid := true));
    case Rows(ipRow, macRow, _, _) =>
      if macRow.Some? && ipRow.Some? {
        WrittenInjective(rows, ipRow.value, CLEAR);
      }
      var cleared := Cleared(rows, f);
      WrittenInjective(cleared, Use(f), Written(cleared[Use(f)], ip, mac, ipRow.Some?));
  }

  // ---- Looking up -----------------------------------------------------------------------

  datatype LookupResult = Hit(mac: nat) | Miss | CantSend

  /** prvCacheLookup from row x on. */
  function LookupFrom(rows: seq<Row>, x: nat, ip: Ip): LookupResult
    requires x <= |rows|
    decreases |rows| - x
  {
    if x == |rows| then Miss
    else if rows[x].ip == ip then (if rows[x].valid then Hit(rows[x].mac) else CantSend)
    else LookupFrom(rows, x + 1, ip)
  }

  /** eARPGetCacheEntryByMac from row x on. */
  function ByMacFrom(rows: seq<Row>, x: nat, mac: nat): Option<Ip>
    requires x <= |rows|
    decreases |rows| - x
  {
    if x == |rows| then None
    else if rows[x].mac == mac then Some(rows[x].ip)
    else ByMacFrom(rows, x + 1, mac)
  }

  /** The only row with the IP address decides. */
  lemma {:induction false} LookupRow(rows: seq<Row>, x: nat, k: nat)
    requires x <= k < |rows| && forall i :: x <= i < k ==> rows[i].ip != rows[k].ip
    ensures LookupFrom(rows, x, rows[k].ip) == if rows[k].valid then Hit(rows[k].mac) else CantSend
    decreases k - x
  {
    if x < k {
      LookupRow(rows, x + 1, k);
    }
  }

  lemma {:induction false} ByMacRow(rows: seq<Row>, x: nat, k: nat)
    requires x <= k < |rows| && forall i :: x <= i < k ==> rows[i].mac != rows[k].mac
    ensures ByMacFrom(rows, x, rows[k].mac) == Some(rows[k].ip)
    decreases k - x
  {
    if x < k {
      ByMacRow(rows, x + 1, k);
    }
  }

  lemma {:induction false} LookupFound(rows: seq<Row>, x: nat, ip: Ip) returns (k: nat)
    requires x <= |rows| && LookupFrom(rows, x, ip) != Miss
    ensures x <= k < |rows| && rows[k].ip == ip
    ensures LookupFrom(rows, x, ip) == if rows[k].valid then Hit(rows[k].mac) else CantSend
    decreases |rows| - x
  {
    k := x;
    if rows[x].ip != ip {
      k := LookupFound(rows, x + 1, ip);
    }
  }

  lemma {:induction false} ByMacFound(rows: seq<Row>, x: nat, mac: nat) returns (k: nat)
    requires x <= |rows| && ByMacFrom(rows, x, mac).Some?
    ensures x <= k < |rows| && rows[k].mac == mac && ByMacFrom(rows, x, mac) == Some(rows[k].ip)
    decreases |rows| - x
  {
    k := x;
    if rows[x].mac != mac {
      k := ByMacFound(rows, x + 1, mac);
    }
  }

  /** After a refresh the IP address leads to the MAC address. */
  lemma RefreshThenLookup(rows: seq<Row>, ip: Ip, mac: nat)
    requires Bounded(rows) && Injective(rows) && ip != 0
    ensures LookupFrom(Refreshed(rows, ip, Some(mac)), 0, ip) == Hit(mac)
  {
    hide Walk, Injective, Bounded;
    RefreshedInjective(rows, ip, Some(mac));
    var n := FoundInTable(rows, ip, Some(mac));
    var f := Walk(rows, 0, ip, Some(mac), NOTHING);
    var r := Refreshed(rows, ip, Some(mac));
    var k := if f.Exact? then f.x else Use(f);
    assert r[k].ip == ip && r[k].mac == mac && r[k].valid;
    OnlyRow(r, k);
  }

  lemma OnlyRow(rows: seq<Row>, k: nat)
    requires Injective(rows) && k < |rows| && rows[k].ip != 0
    ensures LookupFrom(rows, 0, rows[k].ip) == if rows[k].valid then Hit(rows[k].mac) else CantSend
  {
    LookupRow(rows, 0, k);
  }

  /** What a forward search finds, a reverse search finds too. */
  lemma ForwardThenReverse(rows: seq<Row>, ip: Ip, mac: nat)
    requires Injective(rows) && mac != 0 && LookupFrom(rows, 0, ip) == Hit(mac)
    ensures ByMacFrom(rows, 0, mac) == Some(ip)
  {
    var k := LookupFound(rows, 0, ip);
    ByMacRow(rows, 0, k);
  }

  /** The reverse search does not ask whether a row is valid: what it finds is found by the forward
      search if and only if the row with the MAC address is. */
  lemma ReverseExact(rows: seq<Row>, ip: Ip, mac: nat) returns (k: nat)
    requires Injective(rows) && ip != 0 && mac != 0 && ByMacFrom(rows, 0, mac) == Some(ip)
    ensures k < |rows| && rows[k].ip == ip && rows[k].mac == mac
    ensures LookupFrom(rows, 0, ip) == Hit(mac) <==> rows[k].valid
  {
    k := ByMacFound(rows, 0, mac);
    OnlyRow(rows, k);
  }

  /** An address for which a request is outstanding takes over the MAC address of the row it has been
      given, and the reverse search finds it there. */
  lemma ReservedKeepsOldMac(rows: seq<Row>, ip: Ip) returns (k: nat)
    requires Bounded(rows) && Injective(rows) && ip != 0
    requires forall i :: 0 <= i < |rows| ==> rows[i].ip != ip && rows[i].mac != 0
    ensures k < |rows|
    ensures LookupFrom(Refreshed(rows, ip, None), 0, ip) == CantSend
    ensures ByMacFrom(Refreshed(rows, ip, None), 0, rows[k].mac) == Some(ip)
  {
    hide Walk, Injective, Bounded;
    RefreshedInjective(rows, ip, None);
    var n := FoundInTable(rows, ip, None);
    k := Use(Walk(rows, 0, ip, None, NOTHING));
    var r := Refreshed(rows, ip, None);
    assert r[k] == Row(ip, rows[k].mac, MAX_RETRANSMISSIONS, false);
    OnlyRow(r, k);
    OnlyMac(r, k);
  }

  lemma OnlyMac(rows: seq<Row>, k: nat)
    requires Injective(rows) && k < |rows| && rows[k].mac != 0
    ensures ByMacFrom(rows, 0, rows[k].mac) == Some(rows[k].ip)
  {
    ByMacRow(rows, 0, k);
  }

  /** A row of other addresses is given up only if neither address was in the table, and then no row
      is older. */
  lemma OthersKept(rows: seq<Row>, ip: Ip, mac: Option<nat>, k: nat)
    requires Bounded(rows) && k < |rows| && Other(rows[k], ip, mac)
    ensures Refreshed(rows, ip, mac)[k] == rows[k]
      || (forall i :: 0 <= i < |rows| ==> Other(rows[i], ip, mac) && rows[k].age <= rows[i].age)
  {
    hide Walk;
    var n := FoundInTable(rows, ip, mac);
  }

  // ---- Ageing ---------------------------------------------------------------------------

  /** A row one tick later: an expired one loses its IP address. */
  function AgedRow(r: Row): Row {
    if r.age == 0 then r
    else if r.age == 1 then r.(age := 0, ip := 0)
    else r.(age := r.age - 1)
  }

  function Aged(rows: seq<Row>): (r: seq<Row>)
    ensures |r| == |rows| && forall k :: 0 <= k < |r| ==> r[k] == AgedRow(rows[k])
  {
    seq(|rows|, k requires 0 <= k < |rows| => AgedRow(rows[k]))
  }

  lemma AgedInjective(rows: seq<Row>)
    requires Bounded(rows) && Injective(rows)
    ensures Bounded(Aged(rows)) && Injective(Aged(rows))
  {}

  /** The table n ticks later. */
  function AgedTimes(rows: seq<Row>, n: nat): (r: seq<Row>)
    ensures |r| == |rows|
  {
    if n == 0 then rows else Aged(AgedTimes(rows, n - 1))
  }

  lemma {:induction false} AgedAt(rows: seq<Row>, n: nat, k: nat)
    requires k < |rows|
    ensures var r := rows[k];
      AgedTimes(rows, n)[k] == if n == 0 || r.age == 0 then r
                               else if n < r.age then r.(age := r.age - n)
                               else r.(age := 0, ip := 0)
    decreases n
  {
    if n > 0 {
      AgedAt(rows, n - 1, k);
    }
  }

  lemma {:induction false} AgedTimesInjective(rows: seq<Row>, n: nat)
    requires Bounded(rows) && Injective(rows)
    ensures Bounded(AgedTimes(rows, n)) && Injective(AgedTimes(rows, n))
    decreases n
  {
    hide Bounded, Injective;
    if n > 0 {
      AgedTimesInjective(rows, n - 1);
      AgedInjective(AgedTimes(rows, n - 1));
    }
  }

  lemma {:induction false} LookupNone(rows: seq<Row>, x: nat, ip: Ip)
    requires x <= |rows| && forall i :: x <= i < |rows| ==> rows[i].ip != ip
    ensures LookupFrom(rows, x, ip) == Miss
    decreases |rows| - x
  {
    if x < |rows| {
      LookupNone(rows, x + 1, ip);
    }
  }

  /** A row can be looked up for exactly as many ticks as it has left. */
  lemma RowLasts(rows: seq<Row>, k: nat, n: nat)
    requires Bounded(rows) && Injective(rows) && k < |rows| && rows[k].ip != 0 && rows[k].age > 0
    ensures LookupFrom(AgedTimes(rows, n), 0, rows[k].ip) ==
      if n < rows[k].age then (if rows[k].valid then Hit(rows[k].mac) else CantSend) else Miss
  {
    hide Bounded;
    AgedAt(rows, n, k);
    AgedTimesInjective(rows, n);
    if n < rows[k].age {
      OnlyRow(AgedTimes(rows, n), k);
    } else {
      forall i | 0 <= i < |rows| ensures AgedTimes(rows, n)[i].ip != rows[k].ip {
        AgedAt(rows, n, i);
      }
      LookupNone(AgedTimes(rows, n), 0, rows[k].ip);
    }
  }

  /** A refresh starts the age of its row anew, whatever was in the table: without further traffic the
      address is found until 150 ticks have passed, and then no longer. */
  lemma RefreshLasts(rows: seq<Row>, ip: Ip, mac: nat, n: nat)
    requires Bounded(rows) && Injective(rows) && ip != 0
    ensures LookupFrom(AgedTimes(Refreshed(rows, ip, Some(mac)), n), 0, ip) == if n < MAX_AGE then Hit(mac) else Miss
  {
    hide Walk, Injective, Bounded;
    RefreshedInjective(rows, ip, Some(mac));
    var m := FoundInTable(rows, ip, Some(mac));
    var f := Walk(rows, 0, ip, Some(mac), NOTHING);
    var r := Refreshed(rows, ip, Some(mac));
    var k := if f.Exact? then f.x else Use(f);
    assert r[k] == Row(ip, mac, MAX_AGE, true);
    RowLasts(r, k, n);
  }

  /** An address that is asked for is reserved for a few ticks only, and asking for one that is in the
      table changes nothing. */
  lemma RequestLasts(rows: seq<Row>, ip: Ip, n: nat)
    requires Bounded(rows) && Injective(rows) && ip != 0
    ensures var r := Refreshed(rows, ip, None);
      if exists k :: 0 <= k < |rows| && rows[k].ip == ip then r == rows
      else LookupFrom(AgedTimes(r, n), 0, ip) == if n < MAX_RETRANSMISSIONS then CantSend else Miss
  {
    hide Walk, Injective, Bounded;
    RefreshedInjective(rows, ip, None);
    var m := FoundInTable(rows, ip, None);
    var f := Walk(rows, 0, ip, None, NOTHING);
    var r := Refreshed(rows, ip, None);
    if f.ipRow.Some? {
      assert r[Use(f)] == rows[Use(f)];
    } else {
      assert m == |rows|;
      assert r[Use(f)].ip == ip && r[Use(f)].age == MAX_RETRANSMISSIONS && !r[Use(f)].valid;
      RowLasts(r, Use(f), n);
    }
  }

  // ---- Every run ------------------------------------------------------------------------

  datatype Event = Refresh(ip: Ip, mac: Option<nat>, onLink: bool) | Tick

  function Next(rows: seq<Row>, e: Event): (r: seq<Row>)
    requires Bounded(rows)
  {
    match e
    case Refresh(ip, mac, onLink) => if onLink then Refreshed(rows, ip, mac) else rows
    case Tick => Aged(rows)
  }

  ghost predicate Run(states: seq<seq<Row>>, events: seq<Event>) {
    && |states| == |events| + 1
    && forall i :: 0 <= i < |events| && Bounded(states[i]) ==> states[i + 1] == Next(states[i], events[i])
  }

  /** Over every run from an empty table no two rows share an address. */
  lemma {:induction false} RunInjective(states: seq<seq<Row>>, events: seq<Event>, i: nat, entries: nat)
    requires Run(states, events) && i < |states| && entries > 0 && states[0] == seq(entries, _ => CLEAR)
    ensures Bounded(states[i]) && Injective(states[i])
    decreases i
  {
    hide Injective, Bounded, Refreshed, Aged;
    if i == 0 {
      EmptyInjective(entries);
    } else {
      RunInjective(states, events, i - 1, entries);
      match events[i - 1]
      case Refresh(ip, mac, onLink) => RefreshedInjective(states[i - 1], ip, mac);
      case Tick => AgedInjective(states[i - 1]);
    }
  }

  lemma EmptyInjective(entries: nat)
    requires entries > 0
    ensures Bounded(seq(entries, _ => CLEAR)) && Injective(seq(entries, _ => CLEAR))
  {}

  // ---- The table ------------------------------------------------------------------------

  class Cache {
    const rows: array<Row>

    constructor (entries: nat)
      ensures fresh(rows) && rows[..] == seq(entries, _ => CLEAR)
    {
      rows := new Row[entries](_ => CLEAR);
    }

    /** The walk of vARPRefreshCacheEntry; known is false once both addresses are in one row. */
    method Search(ip: Ip, mac: Option<nat>) returns (f: Found)
      requires Bounded(rows[..])
      ensures f == Walk(rows[..], 0, ip, mac, NOTHING)
    {
      f := NOTHING;
      var x := 0;
      while x < rows.Length
        invariant x <= rows.Length && f.Rows?
        invariant Walk(rows[..], 0, ip, mac, NOTHING) == Walk(rows[..], x, ip, mac, f)
      {
        if rows[x].ip == ip {
          if mac.None? {
            return f.(ipRow := Some(x));
          }
          if rows[x].mac == mac.value {
            return Exact(x);
          }
          f := f.(ipRow := Some(x));
        } else if mac.Some? && rows[x].mac == mac.value {
          f := f.(macRow := Some(x));
        } else if rows[x].age < f.minAge {
          f := f.(oldest := x, minAge := rows[x].age);
        }
        x := x + 1;
      }
    }

    /** vARPRefreshCacheEntry: the addresses of other networks are ignored. */
    method Refresh(ip: Ip, mac: Option<nat>, local: Ip, netMask: Ip)
      requires Bounded(rows[..])
      modifies rows
      ensures rows[..] == Next(old(rows[..]), Event.Refresh(ip, mac, ip & netMask == local & netMask || local == 0))
    {
      if ip & netMask == local & netMask || local == 0 {
        InTable(rows[..], ip, mac);
        var f := Search(ip, mac);
        if f.Exact? {
          rows[f.x] := rows[f.x].(age := MAX_AGE, valid := true);
          return;
        }
        var use := f.oldest;
        if f.macRow.Some? {
          use := f.macRow.value;
          if f.ipRow.Some? {
            rows[f.ipRow.value] := CLEAR;
          }
        } else if f.ipRow.Some? {
          use := f.ipRow.value;
        }
        rows[use] := rows[use].(ip := ip);
        if mac.Some? {
          rows[use] := rows[use].(mac := mac.value, age := MAX_AGE, valid := true);
        } else if f.ipRow.None? {
          rows[use] := rows[use].(age := MAX_RETRANSMISSIONS, valid := false);
        }
      }
    }

    method Lookup(ip: Ip) returns (r: LookupResult)
      ensures r == LookupFrom(rows[..], 0, ip)
    {
      var x := 0;
      while x < rows.Length
        invariant x <= rows.Length && LookupFrom(rows[..], 0, ip) == LookupFrom(rows[..], x, ip)
      {
        if rows[x].ip == ip {
          return if rows[x].valid then Hit(rows[x].mac) else CantSend;
        }
        x := x + 1;
      }
      return Miss;
    }

    method ByMac(mac: nat) returns (ip: Option<Ip>)
      ensures ip == ByMacFrom(rows[..], 0, mac)
    {
      var x := 0;
      while x < rows.Length
        invariant x <= rows.Length && ByMacFrom(rows[..], 0, mac) == ByMacFrom(rows[..], x, mac)
      {
        if rows[x].mac == mac {
          return Some(rows[x].ip);
        }
        x := x + 1;
      }
      return None;
    }

    /** vARPAgeCache, without the requests it sends. */
    method Age()
      modifies rows
      ensures rows[..] == Aged(old(rows[..]))
    {
      var x := 0;
      while x < rows.Length
        invariant x <= rows.Length
        invariant forall k :: 0 <= k < x ==> rows[k] == AgedRow(old(rows[k]))
        invariant forall k :: x <= k < rows.Length ==> rows[k] == old(rows[k])
      {
        if rows[x].age > 0 {
          rows[x] := rows[x].(age := rows[x].age - 1);
          if rows[x].age == 0 {
            rows[x] := rows[x].(ip := 0);
          }
        }
        x := x + 1;
      }
    }
  }
}
