/**
 * Port-forward rules of vde_plug/vde_plug.c: pinned rules are installed once, fallback rules
 * follow the first DHCP client seen on the segment.  The rules sit in an array and carry
 * their own `applied` flags; the NAT's installed table is what those flags must match.
 */
module PortForward {
  import opened Bytes

  /** What the NAT distinguishes forwards by. */
  datatype Key = Key(udp: bool, hostAddr: uint32, hostPort: uint16)

  datatype Rule = Rule(key: Key, guestPort: uint16, guestAddr: uint32, lastOctet: nat, applied: bool, appliedTo: uint32)

  datatype Target = Target(addr: uint32, port: uint16)

  /** Settings that do not change while the hub runs. */
  datatype Config = Config(network: uint32, dhcpStart: uint32, switched: bool, portfwd: bool, slirp: bool)

  predicate Pinned(r: Rule) {
    r.guestAddr != 0 || r.lastOctet != 0
  }

  /** octet_to_addr: the rule's last octet in the virtual network. */
  function OctetToAddr(c: Config, octet: nat): uint32 {
    c.network - c.network % 256 + octet % 256
  }

  /** fwd_target: 0 means it cannot be told yet. */
  function TargetOf(c: Config, r: Rule, first: uint32): uint32 {
    if r.guestAddr != 0 then r.guestAddr
    else if r.lastOctet != 0 then OctetToAddr(c, r.lastOctet)
    else if first != 0 then first
    else if !c.switched then c.dhcpStart
    else 0
  }

  /** Where an applied rule must point: its pin, or the first client, or dhcp_start until there is one. */
  function Proper(c: Config, r: Rule, first: uint32): uint32 {
    if r.guestAddr != 0 then r.guestAddr
    else if r.lastOctet != 0 then OctetToAddr(c, r.lastOctet)
    else if first != 0 then first
    else c.dhcpStart
  }

  /** A rule's last octet completes to the address of the virtual network's /24 that ends in it. */
  lemma OctetCompletes(c: Config, octet: nat)
    requires octet <= 254
    ensures OctetToAddr(c, octet) / 256 == c.network / 256 && OctetToAddr(c, octet) % 256 == octet
  {
  }

  /**
   * Where an applied rule points: a pin wins, by address before octet; a rule without one follows
   * the first client, and stands at dhcp_start before there is any.
   */
  lemma ProperTargets(c: Config, r: Rule, first: uint32)
    requires r.lastOctet <= 254
    ensures r.guestAddr != 0 ==> Proper(c, r, first) == r.guestAddr
    ensures r.guestAddr == 0 && r.lastOctet != 0 ==>
              Proper(c, r, first) / 256 == c.network / 256 && Proper(c, r, first) % 256 == r.lastOctet
    ensures !Pinned(r) ==> Proper(c, r, first) == if first != 0 then first else c.dhcpStart
    ensures Pinned(r) <==> r.guestAddr != 0 || r.lastOctet != 0
  {
    hide OctetToAddr;
    OctetCompletes(c, r.lastOctet);
  }

  /** The target can only be left open for a rule without a pin, on a shared switch, before the first client. */
  lemma TargetIsProper(c: Config, r: Rule, first: uint32)
    ensures TargetOf(c, r, first)
            == if c.switched && !Pinned(r) && first == 0 then 0 else Proper(c, r, first)
  {
    hide OctetToAddr;
  }

  /** The NAT's table agrees with one rule's flags. */
  predicate Shows(table: map<Key, Target>, r: Rule) {
    if r.applied then r.key in table && table[r.key] == Target(r.appliedTo, r.guestPort)
    else r.key !in table
  }

  /** A rule without what installing changes. */
  function Static(r: Rule): Rule {
    r.(applied := false, appliedTo := 0)
  }

  /** Every rule's flags match the table, and nothing else is in it. */
  ghost predicate Matches(rs: seq<Rule>, table: map<Key, Target>) {
    && (forall i :: 0 <= i < |rs| ==> Shows(table, rs[i]))
    && (forall k :: k in table ==> Owner(rs, k))
  }

  ghost predicate Owner(rs: seq<Rule>, k: Key) {
    exists i :: 0 <= i < |rs| && rs[i].key == k
  }

  ghost predicate Distinct(rs: seq<Rule>) {
    forall i, j :: 0 <= i < j < |rs| ==> rs[i].key != rs[j].key
  }

  lemma SwitchOff(rs: seq<Rule>, table: map<Key, Target>, n: nat)
    requires n < |rs| && Distinct(rs) && Matches(rs, table)
    ensures Matches(rs[n := rs[n].(applied := false)], table - {rs[n].key})
  {
    var rs2, t2 := rs[n := rs[n].(applied := false)], table - {rs[n].key};
    forall k | k in t2
      ensures Owner(rs2, k)
    {
      assert Owner(rs, k);
      var i :| 0 <= i < |rs| && rs[i].key == k;
      assert rs2[i].key == k;
    }
  }

  lemma SwitchOn(rs: seq<Rule>, table: map<Key, Target>, n: nat, target: uint32)
    requires n < |rs| && Distinct(rs) && Matches(rs, table) && !rs[n].applied
    ensures Matches(rs[n := rs[n].(applied := true, appliedTo := target)],
                    table[rs[n].key := Target(target, rs[n].guestPort)])
  {
    var rs2 := rs[n := rs[n].(applied := true, appliedTo := target)];
    var t2 := table[rs[n].key := Target(target, rs[n].guestPort)];
    forall k | k in t2
      ensures Owner(rs2, k)
    {
      if k == rs[n].key {
        assert rs2[n].key == k;
      } else {
        assert Owner(rs, k);
        var i :| 0 <= i < |rs| && rs[i].key == k;
        assert rs2[i].key == k;
      }
    }
  }

  class Forwards {
    const rules: array<Rule>
    const c: Config
    var first: uint32
    /** What the NAT has installed. */
    var table: map<Key, Target>

    /** Applied rules point where they should, given the first client known so far. */
    ghost predicate Pointed(upTo: int, before: uint32)
      reads this, rules
    {
      forall i :: 0 <= i < rules.Length && rules[i].applied ==>
        rules[i].appliedTo == Proper(c, rules[i], if i < upTo then first else before)
    }

    ghost predicate Valid()
      reads this, rules
    {
      && Distinct(rules[..]) && Matches(rules[..], table) && OctetsOk()
      && Pointed(rules.Length, first) && (!(c.portfwd && c.slirp) ==> NoneApplied())
    }

    /** What the rule parser lets through. */
    ghost predicate OctetsOk()
      reads rules
    {
      forall i :: 0 <= i < rules.Length ==> rules[i].lastOctet <= 254
    }

    ghost predicate NoneApplied()
      reads rules
    {
      forall i :: 0 <= i < rules.Length ==> !rules[i].applied
    }

    /** Rules only ever change their applied and appliedTo fields. */
    twostate predicate OnlyFlagsChanged()
      reads this, rules
    {
      forall i :: 0 <= i < rules.Length ==> Static(rules[i]) == Static(old(rules[i]))
    }

    constructor (rules: array<Rule>, c: Config)
      requires Distinct(rules[..])
      requires forall i :: 0 <= i < rules.Length ==> !rules[i].applied && rules[i].lastOctet <= 254
      ensures this.rules == rules && this.c == c && Valid() && first == 0 && NoneApplied()
    {
      this.rules, this.c := rules, c;
      first, table := 0, map[];
    }

    /**
     * fwd_install: move rule n to `target`; granted says whether the NAT takes the new forward.
     * A refusal leaves the rule uninstalled.
     */
    method Install(n: nat, target: uint32, granted: bool)
      requires Distinct(rules[..]) && Matches(rules[..], table) && n < rules.Length
      modifies rules, this`table
      ensures Distinct(rules[..]) && Matches(rules[..], table) && OnlyFlagsChanged()
      ensures forall i :: 0 <= i < rules.Length && i != n ==> rules[i] == old(rules[i])
      ensures rules[n].applied ==> rules[n].appliedTo == target
      ensures rules[n].applied <==> granted || (old(rules[n]).applied && old(rules[n]).appliedTo == target)
    {
      hide Matches;
      ghost var was := rules[..];
      if rules[n].applied {
        if rules[n].appliedTo == target {
          return;
        }
        SwitchOff(rules[..], table, n);
        table := table - {rules[n].key};
        rules[n] := rules[n].(applied := false);
        assert rules[..] == was[n := was[n].(applied := false)];
      }
      ghost var off := rules[..];
      if granted {
        SwitchOn(rules[..], table, n, target);
        table := table[rules[n].key := Target(target, rules[n].guestPort)];
        rules[n] := rules[n].(applied := true, appliedTo := target);
        assert rules[..] == off[n := off[n].(applied := true, appliedTo := target)];
      }
    }

    /** apply_port_forwards, run once when the NAT comes up. */
    method Apply(granted: seq<bool>)
      requires Valid() && first == 0 && NoneApplied() && c.slirp && |granted| == rules.Length
      modifies rules, this`table
      ensures Valid() && OnlyFlagsChanged()
      ensures c.portfwd ==> forall i :: 0 <= i < rules.Length ==> rules[i].applied == granted[i]
    {
      hide Matches;
      if !c.portfwd {
        return;
      }
      var i := 0;
      while i < rules.Length
        invariant 0 <= i <= rules.Length && Distinct(rules[..]) && Matches(rules[..], table)
        invariant OctetsOk() && OnlyFlagsChanged()
        invariant Pointed(rules.Length, first)
        invariant forall j :: 0 <= j < i ==> rules[j].applied == granted[j]
        invariant forall j :: i <= j < rules.Length ==> !rules[j].applied
      {
        var t := TargetOf(c, rules[i], first);
        Install(i, if t == 0 then c.dhcpStart else t, granted[i]);
        i := i + 1;
      }
    }

    /**
     * portfwd_note_first_client: the first nonzero address is latched, fallback rules are
     * re-pointed at it, and pinned rules are left alone.
     */
    method NoteFirstClient(addr: uint32, granted: seq<bool>)
      requires Valid() && |granted| == rules.Length
      modifies rules, this`first, this`table
      ensures Valid() && OnlyFlagsChanged()
      ensures first == if old(first) == 0 then addr else old(first)
      ensures !(old(first) == 0 && addr != 0 && c.portfwd && c.slirp) ==>
                table == old(table) && forall i :: 0 <= i < rules.Length ==> rules[i] == old(rules[i])
      ensures forall i :: 0 <= i < rules.Length && Pinned(rules[i]) ==> rules[i] == old(rules[i])
      ensures old(first) == 0 && addr != 0 && c.portfwd && c.slirp ==>
                forall i :: 0 <= i < rules.Length && !Pinned(rules[i]) ==>
                  (rules[i].applied <==> granted[i] || (old(rules[i]).applied && old(rules[i]).appliedTo == addr))
    {
      hide Matches, OctetToAddr;
      if first != 0 || addr == 0 {
        return;
      }
      first := addr;
      if !c.portfwd || !c.slirp {
        return;
      }
      var i := 0;
      while i < rules.Length
        invariant 0 <= i <= rules.Length && Distinct(rules[..]) && Matches(rules[..], table)
        invariant OctetsOk() && OnlyFlagsChanged()
        invariant first == addr && Pointed(i, 0)
        invariant forall j :: i <= j < rules.Length ==> rules[j] == old(rules[j])
        invariant forall j :: 0 <= j < rules.Length && Pinned(rules[j]) ==> rules[j] == old(rules[j])
        invariant forall j :: 0 <= j < i && !Pinned(rules[j]) ==>
                    (rules[j].applied <==> granted[j] || (old(rules[j]).applied && old(rules[j]).appliedTo == addr))
      {
        var r := rules[i];
        if r.guestAddr != 0 || r.lastOctet != 0 {
        } else if r.applied && r.appliedTo == addr {
        } else {
          Install(i, addr, granted[i]);
        }
        i := i + 1;
      }
    }

    /** The lease addr has moved every fallback rule, as far as the NAT took it. */
    twostate predicate Repointed(addr: uint32, granted: seq<bool>)
      reads this, rules
      requires |granted| == rules.Length
    {
      forall i :: 0 <= i < rules.Length && !Pinned(rules[i]) ==>
        (rules[i].applied <==> granted[i] || (old(rules[i]).applied && old(rules[i]).appliedTo == addr))
    }

    /**
     * Any sequence of DHCP acknowledgements.  The first nonzero address stays the first client
     * for good; it moves the fallback rules, once, and every one that is applied then points at
     * it; nothing else moves a rule.
     */
    method Watch(leases: seq<uint32>, granted: seq<seq<bool>>)
      requires Valid() && |granted| == |leases| && forall i :: 0 <= i < |granted| ==> |granted[i]| == rules.Length
      modifies rules, this`first, this`table
      ensures Valid() && OnlyFlagsChanged() && first == Latched(old(first), leases)
      ensures forall i :: 0 <= i < rules.Length && Pinned(rules[i]) ==> rules[i] == old(rules[i])
      ensures var k := FirstNonzero(leases);
              if old(first) == 0 && k < |leases| && c.portfwd && c.slirp then Repointed(leases[k], granted[k])
              else table == old(table) && forall i :: 0 <= i < rules.Length ==> rules[i] == old(rules[i])
    {
      hide Matches, OctetToAddr;
      ghost var k := FirstNonzero(leases);
      var n := 0;
      while n < |leases|
        invariant 0 <= n <= |leases| && Valid() && OnlyFlagsChanged()
        invariant Latched(old(first), leases) == Latched(first, leases[n..])
        invariant n <= k ==> first == old(first)
        invariant n > k ==> first != 0
        invariant forall i :: 0 <= i < rules.Length && Pinned(rules[i]) ==> rules[i] == old(rules[i])
        invariant if old(first) == 0 && k < n && c.portfwd && c.slirp then Repointed(leases[k], granted[k])
                  else table == old(table) && forall i :: 0 <= i < rules.Length ==> rules[i] == old(rules[i])
      {
        assert leases[n..][1..] == leases[n + 1..];
        NoteFirstClient(leases[n], granted[n]);
        n := n + 1;
      }
    }
  }

  /** The position of the first lease that names an address. */
  function FirstNonzero(leases: seq<uint32>): (k: nat)
    ensures k <= |leases| && (forall j :: 0 <= j < k ==> leases[j] == 0) && (k < |leases| ==> leases[k] != 0)
  {
    if leases == [] || leases[0] != 0 then 0 else 1 + FirstNonzero(leases[1..])
  }

  /** The first client after a run of lease addresses: the first nonzero one, once and for all. */
  function Latched(first: uint32, leases: seq<uint32>): uint32
    decreases |leases|
  {
    if leases == [] then first else Latched(if first == 0 then leases[0] else first, leases[1..])
  }

  lemma {:induction false} LatchedForGood(first: uint32, leases: seq<uint32>)
    requires first != 0
    ensures Latched(first, leases) == first
    decreases |leases|
  {
    if leases != [] {
      LatchedForGood(first, leases[1..]);
    }
  }

  /** The latch holds the earliest nonzero lease, and stays open exactly while there is none. */
  lemma {:induction false} LatchedIsFirst(leases: seq<uint32>)
    ensures var k := FirstNonzero(leases); Latched(0, leases) == if k < |leases| then leases[k] else 0
    decreases |leases|
  {
    if leases != [] {
      if leases[0] != 0 {
        LatchedForGood(leases[0], leases[1..]);
      } else {
        LatchedIsFirst(leases[1..]);
      }
    }
  }
}
