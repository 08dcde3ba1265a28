/** First-fit allocation of 192.168.X.0/24 subnets to VMs. */
module Subnets {
  import Counting

  const MIN_OCTET: nat := 100
  const MAX_OCTET: nat := 254
  const CAPACITY: nat := MAX_OCTET - MIN_OCTET + 1

  datatype SubnetInfo = SubnetInfo(octet: nat, gatewayIP: string, guestIP: string, subnet: string, vmID: string)

  datatype Allocation = Allocated(info: SubnetInfo) | Exhausted | SaveFailed

  type Table = map<string, SubnetInfo>

  function Digit(d: nat): char
    requires d < 10
  {
    "0123456789"[d]
  }

  /** `%d` */
  function Decimal(n: nat): string {
    if n < 10 then [Digit(n)] else Decimal(n / 10) + [Digit(n % 10)]
  }

  lemma {:induction false} DecimalInjective(m: nat, n: nat)
    requires Decimal(m) == Decimal(n)
    ensures m == n
  {
    var a, b := Decimal(m), Decimal(n);
    assert a[|a| - 1] == Digit(m % 10) && b[|b| - 1] == Digit(n % 10);
    if m >= 10 && n >= 10 {
      assert a[..|a| - 1] == Decimal(m / 10) && b[..|b| - 1] == Decimal(n / 10);
      DecimalInjective(m / 10, n / 10);
    } else {
      DecimalNotEmpty(m / 10);
      DecimalNotEmpty(n / 10);
    }
  }

  lemma DecimalNotEmpty(n: nat)
    ensures Decimal(n) != ""
  {
  }

  function Address(octet: nat, host: string): string {
    "192.168." + Decimal(octet) + "." + host
  }

  function InfoFor(octet: nat, vmID: string): SubnetInfo {
    SubnetInfo(octet, Address(octet, "1"), Address(octet, "2"), Address(octet, "0/24"), vmID)
  }

  function DigitChar(d: nat): char
    requires d < 10
  {
    ('0' as int + d) as char
  }

  lemma DecimalOfOctet(octet: nat)
    requires MIN_OCTET <= octet <= MAX_OCTET
    ensures Decimal(octet) == [DigitChar(octet / 100), DigitChar(octet / 10 % 10), DigitChar(octet % 10)]
  {
    DigitIsChar(octet / 100);
    DigitIsChar(octet / 10 % 10);
    DigitIsChar(octet % 10);
    assert octet / 10 / 10 == octet / 100;
    assert Decimal(octet / 100) == [Digit(octet / 100)];
  }

  lemma DigitIsChar(d: nat)
    requires d < 10
    ensures Digit(d) == DigitChar(d)
  {
  }

  /** An octet in three decimal digits, in a gateway ending in 1, a guest address in 2 and a subnet in 0/24. */
  lemma AddressesOf(octet: nat, vmID: string)
    requires MIN_OCTET <= octet <= MAX_OCTET
    ensures var digits := [DigitChar(octet / 100), DigitChar(octet / 10 % 10), DigitChar(octet % 10)];
            InfoFor(octet, vmID) == SubnetInfo(octet, "192.168." + digits + ".1", "192.168." + digits + ".2",
                                               "192.168." + digits + ".0/24", vmID)
  {
    DecimalOfOctet(octet);
    Dotted("192.168." + Decimal(octet), "1");
    Dotted("192.168." + Decimal(octet), "2");
    Dotted("192.168." + Decimal(octet), "0/24");
    assert "." + "1" == ".1" && "." + "2" == ".2" && "." + "0/24" == ".0/24";
  }

  lemma Dotted(net: string, host: string)
    ensures net + "." + host == net + ("." + host)
  {
  }

  lemma AddressInjective(a: nat, b: nat, host: string)
    requires Address(a, host) == Address(b, host)
    ensures a == b
  {
    var s, t := Address(a, host), Address(b, host);
    var p, q := "192.168.", "." + host;
    assert s == p + Decimal(a) + q && t == p + Decimal(b) + q;
    assert s[|p|..|s| - |q|] == Decimal(a) && t[|p|..|t| - |q|] == Decimal(b);
    DecimalInjective(a, b);
  }

  ghost predicate TableInv(rows: Table) {
    && (forall vm :: vm in rows ==> MIN_OCTET <= rows[vm].octet <= MAX_OCTET && rows[vm] == InfoFor(rows[vm].octet, vm))
    && (forall v, w :: v in rows && w in rows && rows[v].octet == rows[w].octet ==> v == w)
  }

  function Octets(rows: Table): set<nat> { set vm | vm in rows :: rows[vm].octet }

  /** Pigeonhole: all octets are in use exactly when as many VMs hold one as there are octets. */
  lemma FullExactly(rows: Table)
    requires TableInv(rows)
    ensures |rows| <= CAPACITY
    ensures AllInUse(rows) <==> |rows| == CAPACITY
    ensures CAPACITY == 155
  {
    var m := OctetMap(rows);
    assert m.Keys == rows.Keys;
    SameSize(m, rows);
    Counting.InjectionIntoRange(m, MIN_OCTET, MAX_OCTET + 1);
    AllInUseIsOnto(rows);
  }

  ghost predicate AllInUse(rows: Table) {
    forall o: nat :: MIN_OCTET <= o <= MAX_OCTET ==> o in Octets(rows)
  }

  lemma SameSize<A, B>(m: map<string, A>, n: map<string, B>)
    requires m.Keys == n.Keys
    ensures |m| == |n|
  {
    assert |m.Keys| == |m| && |n.Keys| == |n|;
  }

  lemma AllInUseIsOnto(rows: Table)
    requires TableInv(rows)
    ensures AllInUse(rows) <==> OctetMap(rows).Values == Counting.Range(MIN_OCTET, MAX_OCTET + 1)
  {
    OctetValues(rows);
    var values := OctetMap(rows).Values;
    if AllInUse(rows) {
      forall o | o in Counting.Range(MIN_OCTET, MAX_OCTET + 1) ensures o in values { var n: nat := o; }
    }
  }

  function OctetMap(rows: Table): map<string, int> { map vm | vm in rows :: rows[vm].octet as int }

  lemma OctetValues(rows: Table)
    ensures forall o: nat :: o in OctetMap(rows).Values <==> o in Octets(rows)
    ensures forall o :: o in OctetMap(rows).Values ==> o >= 0
  {
    var m := OctetMap(rows);
    forall o: nat | o in Octets(rows) ensures o in m.Values {
      var vm :| vm in rows && rows[vm].octet == o;
      assert vm in m && m[vm] == o;
    }
  }

  /** No two VMs ever share an address. */
  lemma AddressesAreDistinct(rows: Table, v: string, w: string)
    requires TableInv(rows) && v in rows && w in rows && v != w
    ensures rows[v].gatewayIP != rows[w].gatewayIP
    ensures rows[v].guestIP != rows[w].guestIP
    ensures rows[v].subnet != rows[w].subnet
  {
    var a, b := rows[v].octet, rows[w].octet;
    if Address(a, "1") == Address(b, "1") { AddressInjective(a, b, "1"); }
    if Address(a, "2") == Address(b, "2") { AddressInjective(a, b, "2"); }
    if Address(a, "0/24") == Address(b, "0/24") { AddressInjective(a, b, "0/24"); }
  }

  /** Octets are not shared, so a row takes its octet along when it goes. */
  lemma ReleasedOctets(rows: Table, vmID: string)
    requires TableInv(rows)
    ensures Octets(rows - {vmID}) == Octets(rows) - (if vmID in rows then {rows[vmID].octet} else {})
  {
    var rest := rows - {vmID};
    forall o | o in Octets(rest) ensures o in Octets(rows) && (vmID in rows ==> o != rows[vmID].octet) {
      var vm :| vm in rest && rest[vm].octet == o;
      assert vm in rows && rows[vm].octet == o;
    }
    forall o | o in Octets(rows) && (vmID in rows ==> o != rows[vmID].octet) ensures o in Octets(rest) {
      var vm :| vm in rows && rows[vm].octet == o;
      assert vm in rest;
    }
  }

  function Without(rows: Table, gone: seq<string>): Table {
    map vm | vm in rows && vm !in gone :: rows[vm]
  }

  lemma WithoutNext(rows: Table, gone: seq<string>, i: nat)
    requires i < |gone|
    ensures Without(rows, gone[..i + 1]) == Without(rows, gone[..i]) - {gone[i]}
  {
    assert gone[..i + 1] == gone[..i] + [gone[i]];
  }

  class SubnetAllocator {
    var rows: Table

    ghost predicate Valid()
      reads this
    {
      TableInv(rows)
    }

    constructor ()
      ensures Valid() && rows == map[]
    {
      rows := map[];
    }

    method UsedOctets() returns (used: set<nat>)
      ensures used == Octets(rows)
    {
      used := {};
      var todo := rows.Keys;
      while todo != {}
        invariant todo <= rows.Keys
        invariant used == set vm | vm in rows && vm !in todo :: rows[vm].octet
      {
        var vm :| vm in todo;
        todo := todo - {vm};
        used := used + {rows[vm].octet};
      }
    }

    method Allocate(vmID: string, saveFails: bool) returns (r: Allocation)
      requires Valid()
      modifies this
      ensures Valid()
      ensures vmID in old(rows) ==> r == Allocated(old(rows)[vmID]) && rows == old(rows)
      ensures r.Exhausted? <==> vmID !in old(rows) && |old(rows)| == CAPACITY
      ensures r.SaveFailed? <==> vmID !in old(rows) && |old(rows)| < CAPACITY && saveFails
      ensures !r.Allocated? ==> rows == old(rows)
      ensures r.Allocated? && vmID !in old(rows) ==>
                && rows == old(rows)[vmID := r.info] && r.info == InfoFor(r.info.octet, vmID)
                && 100 <= r.info.octet <= 254 && r.info.octet !in Octets(old(rows))
                && forall o :: 100 <= o < r.info.octet ==> o in Octets(old(rows))
    {
      FullExactly(rows);
      if vmID in rows {
        return Allocated(rows[vmID]);
      }
      var used := UsedOctets();
      var octet := 0;
      for o := MIN_OCTET to MAX_OCTET + 1
        invariant octet == 0
        invariant forall p :: MIN_OCTET <= p < o ==> p in used
      {
        if o !in used {
          octet := o;
          break;
        }
      }
      if octet == 0 {
        return Exhausted;
      }
      if saveFails {
        return SaveFailed;
      }
      var info := InfoFor(octet, vmID);
      rows := rows[vmID := info];
      return Allocated(info);
    }

    method Release(vmID: string)
      requires Valid()
      modifies this
      ensures Valid()
      ensures Octets(rows) == Octets(old(rows)) - (if vmID in old(rows) then {old(rows)[vmID].octet} else {})
      ensures vmID !in rows && forall vm :: vm != vmID ==> (vm in rows <==> vm in old(rows))
      ensures forall vm :: vm in rows ==> rows[vm] == old(rows)[vm]
    {
      ReleasedOctets(rows, vmID);
      rows := rows - {vmID};
    }

    /** Removes the rows of VMs that no longer exist. */
    method Cleanup(existing: set<string>)
      requires Valid()
      modifies this
      ensures Valid()
      ensures rows == map vm | vm in old(rows) && vm in existing :: old(rows)[vm]
    {
      var stale := StaleVMs(existing);
      for i := 0 to |stale|
        invariant rows == Without(old(rows), stale[..i])
      {
        WithoutNext(old(rows), stale, i);
        rows := rows - {stale[i]};
      }
      assert stale[..|stale|] == stale;
    }

    method StaleVMs(existing: set<string>) returns (stale: seq<string>)
      ensures forall vm :: vm in stale <==> vm in rows && vm !in existing
    {
      stale := [];
      var todo := rows.Keys;
      while todo != {}
        invariant todo <= rows.Keys
        invariant forall vm :: vm in stale <==> vm in rows && vm !in todo && vm !in existing
      {
        var vm :| vm in todo;
        todo := todo - {vm};
        if vm !in existing {
          stale := stale + [vm];
        }
      }
    }

    /** A full pool takes a new VM again as soon as one of the others is released, at the octet that one held. */
    method ReleaseThenAllocate(gone: string, vmID: string) returns (r: Allocation)
      requires Valid() && |rows| == CAPACITY && gone in rows && vmID !in rows
      modifies this
      ensures Valid()
      ensures r.Allocated? && r.info.octet == old(rows)[gone].octet
      ensures rows == (old(rows) - {gone})[vmID := r.info]
    {
      FullExactly(rows);
      ghost var before := rows;
      Release(gone);
      assert rows == before - {gone};
      assert |rows.Keys| == |before.Keys| - 1 by { assert rows.Keys == before.Keys - {gone}; }
      assert |rows| == |rows.Keys| && |before| == |before.Keys|;
      forall vm | vm in before && vm != gone ensures before[vm].octet in Octets(rows) { assert vm in rows; }
      r := Allocate(vmID, false);
      assert r.info.octet in Octets(before);
      ghost var holder :| holder in before && before[holder].octet == r.info.octet;
      assert holder == gone;
    }
  }
}
