/*
 * What the inventory document promises its consumer, derived from the
 * key-by-key description of the pass: who is listed under the default group
 * and how often, which group and template lists a host joins, when a host
 * leaves no trace, which hostvars entries exist, and that processing a host
 * only ever adds.
 */
module Properties {
  import opened Topology
  import opened Document

  /** The names of the included hosts, in input order. */
  function IncludedNames(hosts: seq<Host>): seq<string>
    decreases |hosts|
  {
    if hosts == [] then []
    else
      var last := hosts[|hosts| - 1];
      IncludedNames(hosts[..|hosts| - 1]) + (if Included(last) then [last.host] else [])
  }

  /** No host record names one of its groups after the default group. */
  predicate NoGroupNamedDefault(hosts: seq<Host>)
  {
    forall i :: 0 <= i < |hosts| ==> DefaultGroup !in GroupKeys(hosts[i].groups)
  }

  /** Host names are unique, as the monitoring server keeps them. */
  predicate DistinctNames(hosts: seq<Host>)
  {
    forall i, j :: 0 <= i < j < |hosts| ==> hosts[i].host != hosts[j].host
  }

  /** A name is among the included names exactly when some included host carries it. */
  lemma {:induction false} IncludedNamesMembership(hosts: seq<Host>, n: string)
    ensures n in IncludedNames(hosts) <==>
      exists i :: 0 <= i < |hosts| && Included(hosts[i]) && hosts[i].host == n
    decreases |hosts|
  {
    if hosts != [] {
      var prefix, last := hosts[..|hosts| - 1], hosts[|hosts| - 1];
      IncludedNamesMembership(prefix, n);
      if n in IncludedNames(prefix) {
        var i :| 0 <= i < |prefix| && Included(prefix[i]) && prefix[i].host == n;
        assert hosts[i] == prefix[i];
      }
      if exists i :: 0 <= i < |hosts| && Included(hosts[i]) && hosts[i].host == n {
        var i :| 0 <= i < |hosts| && Included(hosts[i]) && hosts[i].host == n;
        if i < |prefix| {
          assert prefix[i] == hosts[i];
        }
      }
    }
  }

  /**
   * An included host is listed under the default group once for being
   * included and once more for every one of its groups named like the
   * default group; template keys never collide with it.
   */
  lemma DefaultGroupOccurrences(h: Host)
    ensures Occurrences(h, DefaultGroup) == 1 + multiset(GroupKeys(h.groups))[DefaultGroup]
  {
    TemplateKeysReserved(h.parentTemplates);
  }

  lemma {:induction false} ExpectedDefaultGroup(hosts: seq<Host>)
    requires NoGroupNamedDefault(hosts)
    ensures Expected(hosts, DefaultGroup) == IncludedNames(hosts)
    decreases |hosts|
  {
    if hosts != [] {
      var prefix, last := hosts[..|hosts| - 1], hosts[|hosts| - 1];
      assert NoGroupNamedDefault(prefix) by {
        forall i | 0 <= i < |prefix|
          ensures DefaultGroup !in GroupKeys(prefix[i].groups)
        {
          assert prefix[i] == hosts[i];
        }
      }
      ExpectedDefaultGroup(prefix);
      DefaultGroupOccurrences(last);
      assert DefaultGroup !in GroupKeys(hosts[|hosts| - 1].groups);
      assert Occurrences(last, DefaultGroup) == 1;
      assert Repeat(last.host, 1) == [last.host];
    }
  }

  /**
   * When no group is named like the default group, the default group's list
   * is exactly the names of the included hosts, in input order.
   */
  lemma DefaultGroupListsIncludedHosts(hosts: seq<Host>)
    requires Flatten(hosts).Ok?
    requires NoGroupNamedDefault(hosts)
    ensures DefaultGroup in Flatten(hosts).value.groups
    ensures Flatten(hosts).value.groups[DefaultGroup] == IncludedNames(hosts)
  {
    FlattenWellFormed(hosts);
    FlattenListAt(hosts, DefaultGroup);
    ExpectedDefaultGroup(hosts);
  }

  lemma {:induction false} IncludedNamesCount(hosts: seq<Host>, i: int)
    requires DistinctNames(hosts)
    requires 0 <= i < |hosts|
    ensures multiset(IncludedNames(hosts))[hosts[i].host] == if Included(hosts[i]) then 1 else 0
    decreases |hosts|
  {
    var prefix, last := hosts[..|hosts| - 1], hosts[|hosts| - 1];
    var tail := if Included(last) then [last.host] else [];
    assert IncludedNames(hosts) == IncludedNames(prefix) + tail;
    assert DistinctNames(prefix);
    if i == |hosts| - 1 {
      forall j | 0 <= j < |prefix|
        ensures prefix[j].host != last.host
      {
        assert prefix[j] == hosts[j];
      }
      IncludedNamesMembership(prefix, last.host);
    } else {
      assert prefix[i] == hosts[i];
      IncludedNamesCount(prefix, i);
    }
  }

  /**
   * With unique host names and no group named like the default group, an
   * included host appears exactly once in the default group's list and a
   * skipped one not at all.
   */
  lemma ListedOnceInDefaultGroup(hosts: seq<Host>, i: int)
    requires Flatten(hosts).Ok?
    requires NoGroupNamedDefault(hosts)
    requires DistinctNames(hosts)
    requires 0 <= i < |hosts|
    ensures DefaultGroup in Flatten(hosts).value.groups
    ensures multiset(Flatten(hosts).value.groups[DefaultGroup])[hosts[i].host] ==
            if Included(hosts[i]) then 1 else 0
  {
    DefaultGroupListsIncludedHosts(hosts);
    IncludedNamesCount(hosts, i);
  }

  /** The host is included, carries the name, and is listed under the key at least once. */
  predicate Contributes(h: Host, k: string, n: string)
  {
    Included(h) && h.host == n && Occurrences(h, k) > 0
  }

  lemma ContributionMembership(h: Host, k: string, n: string)
    ensures n in Contribution(h, k) <==> Contributes(h, k, n)
  {
    if Included(h) {
      RepeatShape(h.host, Occurrences(h, k));
    }
  }

  /** Every name in a key's expected list comes from a host that contributes it. */
  lemma {:induction false} ExpectedSource(hosts: seq<Host>, k: string, n: string)
    requires n in Expected(hosts, k)
    ensures exists i :: 0 <= i < |hosts| && Contributes(hosts[i], k, n)
    decreases |hosts|
  {
    var prefix, last := hosts[..|hosts| - 1], hosts[|hosts| - 1];
    assert Expected(hosts, k) == Expected(prefix, k) + Contribution(last, k);
    if n in Expected(prefix, k) {
      ExpectedSource(prefix, k, n);
      var i :| 0 <= i < |prefix| && Contributes(prefix[i], k, n);
      assert hosts[i] == prefix[i];
    } else {
      ContributionMembership(last, k, n);
      assert Contributes(hosts[|hosts| - 1], k, n);
    }
  }

  /** A host that contributes a name to a key puts the name in that key's expected list. */
  lemma {:induction false} ExpectedIncludes(hosts: seq<Host>, k: string, n: string, i: nat)
    requires i < |hosts| && Contributes(hosts[i], k, n)
    ensures n in Expected(hosts, k)
    decreases |hosts|
  {
    var prefix, last := hosts[..|hosts| - 1], hosts[|hosts| - 1];
    assert Expected(hosts, k) == Expected(prefix, k) + Contribution(last, k);
    if i < |prefix| {
      assert prefix[i] == hosts[i];
      ExpectedIncludes(prefix, k, n, i);
    } else {
      ContributionMembership(last, k, n);
    }
  }

  /** A name is in a key's expected list exactly when an included host of that name contributes to the key. */
  lemma ExpectedMembership(hosts: seq<Host>, k: string, n: string)
    ensures n in Expected(hosts, k) <==> exists i :: 0 <= i < |hosts| && Contributes(hosts[i], k, n)
  {
    if n in Expected(hosts, k) {
      ExpectedSource(hosts, k, n);
    } else {
      forall i | 0 <= i < |hosts|
        ensures !Contributes(hosts[i], k, n)
      {
        if Contributes(hosts[i], k, n) {
          ExpectedIncludes(hosts, k, n, i);
        }
      }
    }
  }

  /** A name listed in an included host's contribution to a key appears in that key's final list, which exists. */
  lemma ListedUnder(hosts: seq<Host>, i: int, k: string)
    requires Flatten(hosts).Ok?
    requires 0 <= i < |hosts| && Included(hosts[i]) && Occurrences(hosts[i], k) > 0
    ensures k in Flatten(hosts).value.groups
    ensures hosts[i].host in Flatten(hosts).value.groups[k]
  {
    FlattenListAt(hosts, k);
    ExpectedMembership(hosts, k, hosts[i].host);
    assert Contributes(hosts[i], k, hosts[i].host);
  }

  /** An included host is listed under every one of its groups, and each such key exists. */
  lemma GroupMembership(hosts: seq<Host>, i: int, j: int)
    requires Flatten(hosts).Ok?
    requires 0 <= i < |hosts| && Included(hosts[i])
    requires 0 <= j < |hosts[i].groups|
    ensures hosts[i].groups[j].name in Flatten(hosts).value.groups
    ensures hosts[i].host in Flatten(hosts).value.groups[hosts[i].groups[j].name]
  {
    var k := hosts[i].groups[j].name;
    assert GroupKeys(hosts[i].groups)[j] == k;
    assert Occurrences(hosts[i], k) > 0;
    ListedUnder(hosts, i, k);
  }

  /** An included host is listed under the rewritten key of every one of its parent templates, and each such key exists. */
  lemma TemplateMembership(hosts: seq<Host>, i: int, j: int)
    requires Flatten(hosts).Ok?
    requires 0 <= i < |hosts| && Included(hosts[i])
    requires 0 <= j < |hosts[i].parentTemplates|
    ensures TemplateKey(hosts[i].parentTemplates[j].name) in Flatten(hosts).value.groups
    ensures hosts[i].host in Flatten(hosts).value.groups[TemplateKey(hosts[i].parentTemplates[j].name)]
  {
    var k := TemplateKey(hosts[i].parentTemplates[j].name);
    assert TemplateKeys(hosts[i].parentTemplates)[j] == k;
    assert Occurrences(hosts[i], k) > 0;
    ListedUnder(hosts, i, k);
  }

  /** A name carried only by skipped hosts appears in no list and has no hostvars entry. */
  lemma SkippedHostAbsent(hosts: seq<Host>, n: string)
    requires Flatten(hosts).Ok?
    requires forall i :: 0 <= i < |hosts| && hosts[i].host == n ==> !Included(hosts[i])
    ensures forall k :: k in Flatten(hosts).value.groups ==> n !in Flatten(hosts).value.groups[k]
    ensures n !in Flatten(hosts).value.hostvars
  {
    var d := Flatten(hosts).value;
    forall k | k in d.groups
      ensures n !in d.groups[k]
    {
      FlattenListAt(hosts, k);
      ExpectedMembership(hosts, k, n);
    }
    FlattenHostvarKeys(hosts, n);
  }

  /**
   * With unique host names, an included host has a hostvars entry exactly
   * when its address differs from its name, and the entry is that address.
   */
  lemma HostvarEntry(hosts: seq<Host>, i: int)
    requires Flatten(hosts).Ok?
    requires DistinctNames(hosts)
    requires 0 <= i < |hosts| && Included(hosts[i])
    ensures hosts[i].host in Flatten(hosts).value.hostvars <==> Address(hosts[i]) != hosts[i].host
    ensures Address(hosts[i]) != hosts[i].host ==>
      Flatten(hosts).value.hostvars[hosts[i].host] == Address(hosts[i])
  {
    var n := hosts[i].host;
    FlattenHostvarKeys(hosts, n);
    if n in Flatten(hosts).value.hostvars {
      var j :| 0 <= j < |hosts| && HasHostvar(hosts[j]) && hosts[j].host == n;
      assert j == i;
    }
    if HasHostvar(hosts[i]) {
      assert LastHostvarSource(hosts, i);
      FlattenHostvarValue(hosts, i);
    }
  }

  /**
   * Processing one host never removes a key, never shortens a list or
   * changes its earlier entries, and changes no hostvars entry but its own.
   */
  lemma WithHostGrowsOnly(d: Doc, h: Host)
    requires WithHost(d, h).Ok?
    ensures forall k :: k in d.groups ==>
      k in WithHost(d, h).value.groups && d.groups[k] <= WithHost(d, h).value.groups[k]
    ensures d.hostvars.Keys <= WithHost(d, h).value.hostvars.Keys
    ensures forall n :: n in d.hostvars && n != h.host ==> WithHost(d, h).value.hostvars[n] == d.hostvars[n]
  {
    var d' := WithHost(d, h).value;
    WithHostKeys(d, h);
    WithHostHostvars(d, h);
    forall k | k in d.groups
      ensures d.groups[k] <= d'.groups[k]
    {
      WithHostListAt(d, h, k);
    }
  }

  lemma {:induction false} ExpectedPrefix(hosts: seq<Host>, m: nat, k: string)
    requires m <= |hosts|
    ensures Expected(hosts[..m], k) <= Expected(hosts, k)
    decreases |hosts|
  {
    if m < |hosts| {
      var prefix := hosts[..|hosts| - 1];
      assert prefix[..m] == hosts[..m];
      ExpectedPrefix(prefix, m, k);
    } else {
      assert hosts[..m] == hosts;
    }
  }

  /**
   * Over the whole pass, the document after the first m hosts is contained
   * in the final one: every key it has is kept and every list it holds is a
   * prefix of the final list.
   */
  lemma FlattenPrefixGrows(hosts: seq<Host>, m: nat)
    requires Flatten(hosts).Ok?
    requires m <= |hosts|
    ensures Flatten(hosts[..m]).Ok?
    ensures forall k :: k in Flatten(hosts[..m]).value.groups ==>
      k in Flatten(hosts).value.groups && Flatten(hosts[..m]).value.groups[k] <= Flatten(hosts).value.groups[k]
  {
    var prefix := hosts[..m];
    FlattenFails(hosts);
    forall i | 0 <= i < |prefix|
      ensures !HitsMeta(prefix[i])
    {
      assert prefix[i] == hosts[i];
    }
    FlattenFails(prefix);
    FlattenKeys(prefix);
    FlattenKeys(hosts);
    forall k | k in Flatten(prefix).value.groups
      ensures k in Flatten(hosts).value.groups
      ensures Flatten(prefix).value.groups[k] <= Flatten(hosts).value.groups[k]
    {
      FlattenListAt(prefix, k);
      FlattenListAt(hosts, k);
      ExpectedPrefix(hosts, m, k);
    }
  }
}
