/** internal/config/backplane/backplane.go: CIDR containment and the validation of
    one region of the catalog. */
module Backplane {
  import opened Common

  // ---- prefixes -------------------------------------------------------------------

  /** An address with its host bits, most significant bit first, and a prefix length:
      32 bits for IPv4 (section 3.1 of RFC 4632), 128 for IPv6 (section 2.3 of RFC 4291). */
  datatype RawPrefix = RawPrefix(address: seq<bool>, ones: nat)

  type Prefix = p: RawPrefix | (|p.address| == 32 || |p.address| == 128) && p.ones <= |p.address|
    witness RawPrefix(seq(32, i => false), 0)

  /** net.ParseCIDR. IPv4-mapped IPv6 texts are outside its domain here. */
  type Parser = string -> Option<Prefix>

  function Mask(width: nat, ones: nat): seq<bool> { seq(width, i => i < ones) }

  function And(a: seq<bool>, b: seq<bool>): seq<bool>
    requires |a| == |b|
  {
    seq(|a|, i requires 0 <= i < |a| => a[i] && b[i])
  }

  /** The network address ParseCIDR returns: the host bits cleared. */
  function Network(p: Prefix): seq<bool> { And(p.address, Mask(|p.address|, p.ones)) }

  /** IPNet.Contains: equal under the mask, and of the same address family. */
  predicate NetContains(net: Prefix, ip: seq<bool>) {
    var mask := Mask(|net.address|, net.ones);
    |ip| == |net.address| && And(Network(net), mask) == And(ip, mask)
  }

  /** The test ContainsCIDR applies to one range. */
  predicate Fits(range: Prefix, candidate: Prefix) {
    candidate.ones >= range.ones && NetContains(range, candidate.address)
  }

  /** An address belongs to the block of `p` if it has the same family and the same
      first `ones` bits. */
  predicate InBlock(a: seq<bool>, p: Prefix) {
    |a| == |p.address| && a[..p.ones] == p.address[..p.ones]
  }

  ghost predicate BlockInside(inner: Prefix, outer: Prefix) {
    forall a :: InBlock(a, inner) ==> InBlock(a, outer)
  }

  lemma NetContainsIsInBlock(net: Prefix, ip: seq<bool>)
    ensures NetContains(net, ip) <==> InBlock(ip, net)
  {
    if |ip| == |net.address| {
      var mask := Mask(|net.address|, net.ones);
      var l, r := And(Network(net), mask), And(ip, mask);
      forall i | 0 <= i < |ip|
        ensures l[i] == (i < net.ones && net.address[i]) && r[i] == (i < net.ones && ip[i])
      { }
      if l == r {
        forall i | 0 <= i < net.ones ensures ip[i] == net.address[i] {
          assert l[i] == r[i];
        }
      }
      if InBlock(ip, net) {
        forall i | 0 <= i < |ip| ensures l[i] == r[i] {
          if i < net.ones {
            assert ip[..net.ones][i] == net.address[..net.ones][i];
          }
        }
      }
    }
  }

  /** The test on prefix lengths and one address decides inclusion of whole blocks,
      whatever host bits the candidate carries. */
  lemma FitsIsInclusion(range: Prefix, candidate: Prefix)
    ensures Fits(range, candidate) <==> BlockInside(candidate, range)
  {
    NetContainsIsInBlock(range, candidate.address);
    assert InBlock(candidate.address, candidate);
    if Fits(range, candidate) {
      forall a | InBlock(a, candidate) ensures InBlock(a, range) {
        assert a[..range.ones] == a[..candidate.ones][..range.ones];
        assert candidate.address[..range.ones] == candidate.address[..candidate.ones][..range.ones];
      }
    } else {
      var a := OutsideAddress(range, candidate);
    }
  }

  /** A candidate that does not fit has an address outside the range: its own, or
      that address with the first bit after its prefix flipped. */
  lemma OutsideAddress(range: Prefix, candidate: Prefix) returns (a: seq<bool>)
    requires !Fits(range, candidate)
    ensures InBlock(a, candidate) && !InBlock(a, range)
  {
    NetContainsIsInBlock(range, candidate.address);
    a := candidate.address;
    var k := candidate.ones;
    if InBlock(a, range) {
      var own := a[..range.ones][k];
      a := a[k := !a[k]];
      if |a| == |range.address| {
        assert a[..range.ones][k] != own;
      }
    }
  }

  // ---- ContainsCIDR ----------------------------------------------------------------

  /** The range at `i` is reached and contains the candidate: everything up to it parses. */
  ghost predicate ContainedAt(parse: Parser, ranges: seq<string>, candidate: Prefix, i: nat) {
    && i < |ranges|
    && (forall j :: 0 <= j <= i ==> parse(ranges[j]).Some?)
    && BlockInside(candidate, parse(ranges[i]).value)
  }

  method ContainsCIDR(parse: Parser, ranges: seq<string>, candidate: string) returns (r: Result<bool>)
    ensures parse(candidate).None? ==> r == Err(UserError)
    ensures parse(candidate).Some? ==>
      (r == Ok(true) <==> exists i :: ContainedAt(parse, ranges, parse(candidate).value, i))
    ensures parse(candidate).Some? ==>
      (r == Ok(false) <==> forall i :: 0 <= i < |ranges| ==>
        parse(ranges[i]).Some? && !BlockInside(parse(candidate).value, parse(ranges[i]).value))
    ensures r.Err? ==> r == Err(UserError)
  {
    if parse(candidate).None? {
      return Err(UserError);
    }
    var c := parse(candidate).value;
    for k := 0 to |ranges|
      invariant forall i :: 0 <= i < k ==> parse(ranges[i]).Some? && !BlockInside(c, parse(ranges[i]).value)
    {
      if parse(ranges[k]).None? {
        return Err(UserError);
      }
      FitsIsInclusion(parse(ranges[k]).value, c);
      if Fits(parse(ranges[k]).value, c) {
        assert ContainedAt(parse, ranges, c, k);
        return Ok(true);
      }
    }
    return Ok(false);
  }

  // ---- loadRegion --------------------------------------------------------------------

  datatype Connection = Connection(name: string, kind: string, vpceId: string, maxCidrs: seq<string>)
  datatype AllowlistEntry = AllowlistEntry(connection: string, allowedIPs: seq<string>)

  /** One region as decoded from YAML; `available` and the parameters may be omitted. */
  datatype RawRegion = RawRegion(available: Option<bool>, inventory: seq<Connection>,
                                 parameters: Option<map<string, string>>, allowlist: seq<AllowlistEntry>)
  datatype Region = Region(available: bool, inventory: seq<Connection>,
                           parameters: map<string, string>, allowlist: seq<AllowlistEntry>)

  ghost predicate AllParse(parse: Parser, cidrs: seq<string>) {
    forall i :: 0 <= i < |cidrs| ==> parse(cidrs[i]).Some?
  }

  ghost predicate ValidConnection(parse: Parser, c: Connection) {
    c.name != "" && c.kind != "" && AllParse(parse, c.maxCidrs)
  }

  predicate UniqueNames(inventory: seq<Connection>) {
    forall i, j :: 0 <= i < j < |inventory| ==> inventory[i].name != inventory[j].name
  }

  ghost predicate ValidInventory(parse: Parser, inventory: seq<Connection>) {
    UniqueNames(inventory) && forall i :: 0 <= i < |inventory| ==> ValidConnection(parse, inventory[i])
  }

  /** The addresses of `ip` all lie inside one of `cidrs`. */
  ghost predicate InsideOne(parse: Parser, ip: string, cidrs: seq<string>) {
    && parse(ip).Some?
    && exists i :: 0 <= i < |cidrs| && parse(cidrs[i]).Some? && BlockInside(parse(ip).value, parse(cidrs[i]).value)
  }

  /** The entry names a connection and narrows it, or inherits its whole range. */
  ghost predicate ValidEntryFor(parse: Parser, c: Connection, e: AllowlistEntry) {
    && c.name == e.connection
    && forall i :: 0 <= i < |e.allowedIPs| ==> InsideOne(parse, e.allowedIPs[i], c.maxCidrs)
  }

  ghost predicate ValidEntry(parse: Parser, inventory: seq<Connection>, e: AllowlistEntry) {
    exists i :: 0 <= i < |inventory| && ValidEntryFor(parse, inventory[i], e)
  }

  ghost predicate ValidRegion(parse: Parser, rr: RawRegion) {
    && ValidInventory(parse, rr.inventory)
    && forall i :: 0 <= i < |rr.allowlist| ==> ValidEntry(parse, rr.inventory, rr.allowlist[i])
  }

  /** The map built by indexing the inventory by name: `connByName` in the source. */
  ghost predicate IsIndex(index: map<string, Connection>, inventory: seq<Connection>) {
    && (forall n :: n in index ==> index[n].name == n && index[n] in inventory)
    && (forall c :: c in inventory ==> c.name in index)
  }

  method LoadInventory(parse: Parser, raw: seq<Connection>) returns (r: Result<seq<Connection>>)
    ensures r.Ok? <==> ValidInventory(parse, raw)
    ensures r == if r.Ok? then Ok(raw) else Err(SystemError)
  {
    var inventory: seq<Connection> := [];
    var seen: map<string, bool> := map[];
    for k := 0 to |raw|
      invariant inventory == raw[..k]
      invariant ValidInventory(parse, raw[..k])
      invariant forall n :: n in seen <==> exists i :: 0 <= i < k && raw[i].name == n
    {
      var rc := raw[k];
      if rc.name == "" || rc.kind == "" || rc.name in seen {
        return Err(SystemError);
      }
      seen := seen[rc.name := true];
      for c := 0 to |rc.maxCidrs|
        invariant forall i :: 0 <= i < c ==> parse(rc.maxCidrs[i]).Some?
      {
        if parse(rc.maxCidrs[c]).None? {
          return Err(SystemError);
        }
      }
      inventory := inventory + [rc];
      assert raw[..k + 1] == raw[..k] + [rc];
    }
    assert raw[..|raw|] == raw;
    return Ok(inventory);
  }

  method IndexByName(inventory: seq<Connection>) returns (index: map<string, Connection>)
    ensures IsIndex(index, inventory)
  {
    index := map[];
    for k := 0 to |inventory|
      invariant forall n :: n in index ==> index[n].name == n && index[n] in inventory
      invariant forall i :: 0 <= i < k ==> inventory[i].name in index
    {
      index := index[inventory[k].name := inventory[k]];
    }
  }

  /** One allowlist entry against the connection the index holds for it. */
  method CheckEntry(parse: Parser, conn: Connection, e: AllowlistEntry) returns (ok: bool)
    requires AllParse(parse, conn.maxCidrs) && conn.name == e.connection
    ensures ok <==> ValidEntryFor(parse, conn, e)
  {
    for k := 0 to |e.allowedIPs|
      invariant forall i :: 0 <= i < k ==> parse(e.allowedIPs[i]).Some?
    {
      if parse(e.allowedIPs[k]).None? {
        return false;
      }
    }
    if |e.allowedIPs| > 0 && |conn.maxCidrs| == 0 {
      assert !InsideOne(parse, e.allowedIPs[0], conn.maxCidrs);
      return false;
    }
    for k := 0 to |e.allowedIPs|
      invariant forall i :: 0 <= i < k ==> InsideOne(parse, e.allowedIPs[i], conn.maxCidrs)
    {
      var contained := ContainsCIDR(parse, conn.maxCidrs, e.allowedIPs[k]);
      if contained != Ok(true) {
        assert forall i :: 0 <= i < |conn.maxCidrs| ==> parse(conn.maxCidrs[i]).Some?;
        ghost var ip := parse(e.allowedIPs[k]).value;
        if InsideOne(parse, e.allowedIPs[k], conn.maxCidrs) {
          ghost var i :| 0 <= i < |conn.maxCidrs| && BlockInside(ip, parse(conn.maxCidrs[i]).value);
          assert ContainedAt(parse, conn.maxCidrs, ip, i);
        }
        return false;
      }
      ghost var i :| ContainedAt(parse, conn.maxCidrs, parse(e.allowedIPs[k]).value, i);
    }
    return true;
  }

  /** A region is accepted exactly when it is valid, and then it is the raw entry
      with the omitted parts defaulted. */
  method LoadRegion(parse: Parser, rr: RawRegion) returns (r: Result<Region>)
    ensures r.Ok? <==> ValidRegion(parse, rr)
    ensures r.Err? ==> r == Err(SystemError)
    ensures r.Ok? ==> r.value == Region(rr.available == Some(true), rr.inventory,
                                        if rr.parameters.Some? then rr.parameters.value else map[], rr.allowlist)
  {
    var available := false;
    if rr.available.Some? {
      available := rr.available.value;
    }
    var loaded := LoadInventory(parse, rr.inventory);
    if loaded.Err? {
      return Err(SystemError);
    }
    var inventory := loaded.value;
    var connByName := IndexByName(inventory);
    var allowlist: seq<AllowlistEntry> := [];
    for k := 0 to |rr.allowlist|
      invariant allowlist == rr.allowlist[..k]
      invariant forall i :: 0 <= i < k ==> ValidEntry(parse, inventory, rr.allowlist[i])
    {
      var ra := rr.allowlist[k];
      if ra.connection !in connByName {
        return Err(SystemError);
      }
      var conn := connByName[ra.connection];
      ghost var at :| 0 <= at < |inventory| && inventory[at] == conn;
      assert ValidConnection(parse, inventory[at]);
      var ok := CheckEntry(parse, conn, ra);
      if !ok {
        return Err(SystemError);
      }
      allowlist := allowlist + [ra];
    }
    var parameters := map[];
    if rr.parameters.Some? {
      parameters := rr.parameters.value;
    }
    return Ok(Region(available, inventory, parameters, allowlist));
  }

  /** A connection as the source refuses it: without a name or a type, or with a range that
      is no CIDR. */
  ghost predicate BadConnection(parse: Parser, c: Connection) {
    c.name == "" || c.kind == "" || exists i :: 0 <= i < |c.maxCidrs| && parse(c.maxCidrs[i]).None?
  }

  /** An allowlist entry as the source refuses it: for a connection nobody declared, with
      an address that is no CIDR, or with one outside all of the connection's ranges, of
      which there may be none. */
  ghost predicate BadEntry(parse: Parser, inventory: seq<Connection>, e: AllowlistEntry) {
    || (forall i :: 0 <= i < |inventory| ==> inventory[i].name != e.connection)
    || exists k :: 0 <= k < |e.allowedIPs| && BadAddress(parse, inventory, e.connection, e.allowedIPs[k])
  }

  ghost predicate BadAddress(parse: Parser, inventory: seq<Connection>, name: string, ip: string) {
    || parse(ip).None?
    || forall i :: 0 <= i < |inventory| && inventory[i].name == name ==> !InsideOne(parse, ip, inventory[i].maxCidrs)
  }

  lemma EntryRefusedExactly(parse: Parser, inventory: seq<Connection>, e: AllowlistEntry)
    requires UniqueNames(inventory)
    ensures !ValidEntry(parse, inventory, e) <==> BadEntry(parse, inventory, e)
  {
    if i :| 0 <= i < |inventory| && inventory[i].name == e.connection {
      forall k | 0 <= k < |e.allowedIPs|
        ensures InsideOne(parse, e.allowedIPs[k], inventory[i].maxCidrs)
           <==> !BadAddress(parse, inventory, e.connection, e.allowedIPs[k])
      {
        assert forall j :: 0 <= j < |inventory| && inventory[j].name == e.connection ==> j == i;
      }
      assert ValidEntry(parse, inventory, e) <==> ValidEntryFor(parse, inventory[i], e);
    }
  }

  /** A region is refused exactly for one of these reasons, or for two connections of one
      name. */
  lemma RefusedExactly(parse: Parser, rr: RawRegion)
    ensures !ValidRegion(parse, rr) <==>
      || (exists i :: 0 <= i < |rr.inventory| && BadConnection(parse, rr.inventory[i]))
      || (exists i, j :: 0 <= i < j < |rr.inventory| && rr.inventory[i].name == rr.inventory[j].name)
      || (exists i :: 0 <= i < |rr.allowlist| && BadEntry(parse, rr.inventory, rr.allowlist[i]))
  {
    forall i | 0 <= i < |rr.inventory|
      ensures ValidConnection(parse, rr.inventory[i]) <==> !BadConnection(parse, rr.inventory[i])
    {
    }
    if UniqueNames(rr.inventory) {
      forall i | 0 <= i < |rr.allowlist|
        ensures !ValidEntry(parse, rr.inventory, rr.allowlist[i]) <==> BadEntry(parse, rr.inventory, rr.allowlist[i])
      {
        EntryRefusedExactly(parse, rr.inventory, rr.allowlist[i]);
      }
    }
  }

  /** Region.Connection: a linear search. */
  method FindConnection(inventory: seq<Connection>, name: string) returns (c: Option<Connection>)
    ensures c == Linear(inventory, name)
  {
    for k := 0 to |inventory|
      invariant forall i :: 0 <= i < k ==> inventory[i].name != name
    {
      if inventory[k].name == name {
        LinearIsFirst(inventory, name, k);
        return Some(inventory[k]);
      }
    }
    if Linear(inventory, name).Some? {
      var k := LinearIndex(inventory, name);
    }
    return None;
  }

  function Linear(inventory: seq<Connection>, name: string): Option<Connection> {
    if inventory == [] then None
    else if inventory[0].name == name then Some(inventory[0])
    else Linear(inventory[1..], name)
  }

  lemma {:induction false} LinearIsFirst(inventory: seq<Connection>, name: string, k: nat)
    requires k < |inventory| && inventory[k].name == name
    requires forall i :: 0 <= i < k ==> inventory[i].name != name
    ensures Linear(inventory, name) == Some(inventory[k])
  {
    if k > 0 {
      LinearIsFirst(inventory[1..], name, k - 1);
    }
  }

  lemma {:induction false} LinearIndex(inventory: seq<Connection>, name: string) returns (k: nat)
    requires Linear(inventory, name).Some?
    ensures k < |inventory| && inventory[k].name == name && Linear(inventory, name) == Some(inventory[k])
  {
    if inventory[0].name == name {
      k := 0;
    } else {
      k := LinearIndex(inventory[1..], name);
      k := k + 1;
    }
  }

  /** On unique names the index and the linear search are the same lookup. */
  lemma IndexAgreesWithSearch(index: map<string, Connection>, inventory: seq<Connection>, name: string)
    requires IsIndex(index, inventory) && UniqueNames(inventory)
    ensures Linear(inventory, name) == if name in index then Some(index[name]) else None
  {
    if Linear(inventory, name).Some? {
      var k := LinearIndex(inventory, name);
      assert inventory[k] in inventory;
      var i :| 0 <= i < |inventory| && inventory[i] == index[name];
      assert i == k by {
        assert !(i < k) && !(k < i);
      }
    } else if name in index {
      var i :| 0 <= i < |inventory| && inventory[i] == index[name];
      SomeLinear(inventory, name, i);
    }
  }

  lemma {:induction false} SomeLinear(inventory: seq<Connection>, name: string, i: nat)
    requires i < |inventory| && inventory[i].name == name
    ensures Linear(inventory, name).Some?
  {
    if inventory[0].name != name {
      SomeLinear(inventory[1..], name, i - 1);
    }
  }

  /** What a consumer of an accepted region may rely on: the search finds the
      connection of every allowlist entry, and each address an entry allows lies in
      one of that connection's ranges. */
  lemma AcceptedAllowlistIsContained(parse: Parser, rr: RawRegion, k: nat, ip: nat, a: seq<bool>)
    requires ValidRegion(parse, rr)
    requires k < |rr.allowlist| && ip < |rr.allowlist[k].allowedIPs|
    ensures parse(rr.allowlist[k].allowedIPs[ip]).Some?
    ensures Linear(rr.inventory, rr.allowlist[k].connection).Some?
    ensures InBlock(a, parse(rr.allowlist[k].allowedIPs[ip]).value) ==>
      exists m :: 0 <= m < |Linear(rr.inventory, rr.allowlist[k].connection).value.maxCidrs|
               && parse(Linear(rr.inventory, rr.allowlist[k].connection).value.maxCidrs[m]).Some?
               && InBlock(a, parse(Linear(rr.inventory, rr.allowlist[k].connection).value.maxCidrs[m]).value)
  {
    var e := rr.allowlist[k];
    assert ValidEntry(parse, rr.inventory, e);
    var i :| 0 <= i < |rr.inventory| && ValidEntryFor(parse, rr.inventory[i], e);
    LinearIsFirst(rr.inventory, e.connection, i);
    assert InsideOne(parse, e.allowedIPs[ip], rr.inventory[i].maxCidrs);
  }
}
