/*
 * The inventory document and the flattening pass, as values. The document
 * holds the `_meta.hostvars` map and every other key's `hosts` list; the
 * functions below say what each step of the pass does to it, and the lemmas
 * describe their cumulative effect key by key.
 */
module Document {
  import opened Topology

  /** The exception the pass can raise: Python's KeyError with the missing key. */
  datatype Error = KeyError(key: string)

  datatype Result<T> = Ok(value: T) | Err(error: Error)

  /**
   * The inventory document: `hostvars` is `_meta.hostvars` (host name to its
   * `ansible_host` value) and `groups` maps every other key to its `hosts` list.
   */
  datatype Doc = Doc(hostvars: map<string, string>, groups: map<string, seq<string>>)

  /** The field every group entry holds its host list under. */
  const HostsKey: string := "hosts"

  /** The host list a newly created group entry starts with. */
  function HostStub(): seq<string>
  {
    []
  }

  /** The document before any host is processed. */
  function Initial(): Doc
  {
    Doc(map[], map[DefaultGroup := HostStub()])
  }

  /** The default group is present and `_meta` is never a group entry. */
  predicate WellFormed(d: Doc)
  {
    DefaultGroup in d.groups && MetaKey !in d.groups
  }

  /** The host list under a key, or the stub's empty list when the key is absent. */
  function HostList(groups: map<string, seq<string>>, key: string): seq<string>
  {
    if key in groups then groups[key] else HostStub()
  }

  /**
   * Create-if-absent then append. Under `_meta` the key is present but its
   * entry has no `hosts` field, so the append raises KeyError('hosts').
   */
  function Appended(d: Doc, key: string, name: string): Result<Doc>
  {
    if key == MetaKey then Err(KeyError(HostsKey))
    else Ok(d.(groups := d.groups[key := HostList(d.groups, key) + [name]]))
  }

  /** Appending a name under each key in turn, stopping at the first error. */
  function AppendedAll(d: Doc, keys: seq<string>, name: string): Result<Doc>
    decreases |keys|
  {
    if keys == [] then Ok(d)
    else
      match AppendedAll(d, keys[..|keys| - 1], name)
      case Err(e) => Err(e)
      case Ok(d1) => Appended(d1, keys[|keys| - 1], name)
  }

  /** The keys a host's groups are appended under, in order. */
  function GroupKeys(gs: seq<Group>): seq<string>
  {
    seq(|gs|, j requires 0 <= j < |gs| => gs[j].name)
  }

  /** The keys a host's parent templates are appended under, in order. */
  function TemplateKeys(ts: seq<Template>): seq<string>
  {
    seq(|ts|, j requires 0 <= j < |ts| => TemplateKey(ts[j].name))
  }

  /** The document a host's group and template appends start from: default group and hostvars done. */
  function BeforeGroups(d: Doc, h: Host): Doc
    requires Included(h)
  {
    var d1 := d.(groups := d.groups[DefaultGroup := HostList(d.groups, DefaultGroup) + [h.host]]);
    if Address(h) != h.host then d1.(hostvars := d1.hostvars[h.host := Address(h)]) else d1
  }

  /**
   * One iteration of the host loop: skip the host, or list it under the
   * default group, record its hostvars entry when its address differs from
   * its name, then append it under each group and each parent template.
   */
  function WithHost(d: Doc, h: Host): Result<Doc>
  {
    if !Included(h) then Ok(d)
    else
      match AppendedAll(BeforeGroups(d, h), GroupKeys(h.groups), h.host)
      case Err(e) => Err(e)
      case Ok(d3) => AppendedAll(d3, TemplateKeys(h.parentTemplates), h.host)
  }

  /** The whole pass over the host records, in the order received. */
  function Flatten(hosts: seq<Host>): Result<Doc>
    decreases |hosts|
  {
    if hosts == [] then Ok(Initial())
    else
      match Flatten(hosts[..|hosts| - 1])
      case Err(e) => Err(e)
      case Ok(d) => WithHost(d, hosts[|hosts| - 1])
  }

  /** `count` copies of a host name. */
  function Repeat(name: string, count: nat): seq<string>
  {
    if count == 0 then [] else Repeat(name, count - 1) + [name]
  }

  /** How many times an included host is listed under a key for being included at all. */
  function DefaultCount(key: string): nat
  {
    if key == DefaultGroup then 1 else 0
  }

  /** How many times one host is appended under a key when it is included. */
  function Occurrences(h: Host, key: string): nat
  {
    DefaultCount(key)
    + multiset(GroupKeys(h.groups))[key]
    + multiset(TemplateKeys(h.parentTemplates))[key]
  }

  /** What one host adds to the end of a key's list. */
  function Contribution(h: Host, key: string): seq<string>
  {
    if Included(h) then Repeat(h.host, Occurrences(h, key)) else []
  }

  /** The list a key should hold after the pass: every host's contribution, in input order. */
  function Expected(hosts: seq<Host>, key: string): seq<string>
    decreases |hosts|
  {
    if hosts == [] then []
    else Expected(hosts[..|hosts| - 1], key) + Contribution(hosts[|hosts| - 1], key)
  }

  /** An included host with a group named `_meta`: processing it raises KeyError. */
  predicate HitsMeta(h: Host)
  {
    Included(h) && MetaKey in GroupKeys(h.groups)
  }

  lemma {:induction false} RepeatShape(name: string, count: nat)
    ensures |Repeat(name, count)| == count
    ensures forall x :: x in Repeat(name, count) <==> count > 0 && x == name
  {
    if count > 0 {
      RepeatShape(name, count - 1);
    }
  }

  lemma {:induction false} RepeatAdd(name: string, a: nat, b: nat)
    ensures Repeat(name, a) + Repeat(name, b) == Repeat(name, a + b)
  {
    if b == 0 {
      assert Repeat(name, b) == [];
    } else {
      RepeatAdd(name, a, b - 1);
    }
  }

  /** Two successive extensions by copies of a name are one extension by their total. */
  lemma RepeatExtend(l0: seq<string>, l1: seq<string>, l2: seq<string>, name: string, a: nat, b: nat, total: nat)
    requires l1 == l0 + Repeat(name, a)
    requires l2 == l1 + Repeat(name, b)
    requires total == a + b
    ensures l2 == l0 + Repeat(name, total)
  {
    RepeatAdd(name, a, b);
  }

  /** No template key is a reserved document key. */
  lemma TemplateKeysReserved(ts: seq<Template>)
    ensures MetaKey !in TemplateKeys(ts)
    ensures DefaultGroup !in TemplateKeys(ts)
  {
    var keys := TemplateKeys(ts);
    forall j | 0 <= j < |keys|
      ensures keys[j] != MetaKey && keys[j] != DefaultGroup
    {
      assert keys[j] == TemplateKey(ts[j].name);
    }
  }

  /** Appending under a sequence of keys fails, with KeyError('hosts'), exactly when `_meta` is among them. */
  lemma {:induction false} AppendedAllFails(d: Doc, keys: seq<string>, name: string)
    ensures AppendedAll(d, keys, name).Err? <==> MetaKey in keys
    ensures AppendedAll(d, keys, name).Err? ==> AppendedAll(d, keys, name).error == KeyError(HostsKey)
    decreases |keys|
  {
    if keys != [] {
      var init := keys[..|keys| - 1];
      assert keys == init + [keys[|keys| - 1]];
      AppendedAllFails(d, init, name);
    }
  }

  /** A successful append never touches hostvars. */
  lemma {:induction false} AppendedAllHostvars(d: Doc, keys: seq<string>, name: string)
    requires AppendedAll(d, keys, name).Ok?
    ensures AppendedAll(d, keys, name).value.hostvars == d.hostvars
    decreases |keys|
  {
    if keys != [] {
      AppendedAllHostvars(d, keys[..|keys| - 1], name);
    }
  }

  /** After a successful append, a key exists exactly when it existed before or was appended under. */
  lemma {:induction false} AppendedAllKeys(d: Doc, keys: seq<string>, name: string)
    requires AppendedAll(d, keys, name).Ok?
    ensures forall k :: k in AppendedAll(d, keys, name).value.groups <==> k in d.groups || k in keys
    decreases |keys|
  {
    if keys != [] {
      var init, last := keys[..|keys| - 1], keys[|keys| - 1];
      assert keys == init + [last];
      AppendedAllKeys(d, init, name);
    }
  }

  /**
   * After a successful append, a key's list has gained the name once per
   * occurrence of the key among the keys, at its end.
   */
  lemma {:induction false} AppendedAllListAt(d: Doc, keys: seq<string>, name: string, k: string, d': Doc)
    requires AppendedAll(d, keys, name) == Ok(d')
    ensures HostList(d'.groups, k) == HostList(d.groups, k) + Repeat(name, multiset(keys)[k])
    decreases |keys|
  {
    if keys != [] {
      var init, last := keys[..|keys| - 1], keys[|keys| - 1];
      assert keys == init + [last];
      var d1 := AppendedAll(d, init, name).value;
      AppendedAllListAt(d, init, name, k, d1);
      assert d'.groups == d1.groups[last := HostList(d1.groups, last) + [name]];
      if k == last {
        assert multiset(keys)[k] == multiset(init)[k] + 1;
      } else {
        assert multiset(keys)[k] == multiset(init)[k];
      }
    }
  }

  /** Listing a host under the default group adds it to that key's list only. */
  lemma BeforeGroupsListAt(d: Doc, h: Host, k: string)
    requires Included(h)
    ensures HostList(BeforeGroups(d, h).groups, k) ==
            HostList(d.groups, k) + Repeat(h.host, DefaultCount(k))
  {
    var groups := d.groups[DefaultGroup := HostList(d.groups, DefaultGroup) + [h.host]];
    assert BeforeGroups(d, h).groups == groups;
    if k == DefaultGroup {
      assert Repeat(h.host, 1) == [h.host];
    } else {
      assert HostList(groups, k) == HostList(d.groups, k);
    }
  }

  /** One host's iteration raises, with KeyError('hosts'), exactly when the host is included and has a group named `_meta`. */
  lemma WithHostFails(d: Doc, h: Host)
    ensures WithHost(d, h).Err? <==> HitsMeta(h)
    ensures WithHost(d, h).Err? ==> WithHost(d, h).error == KeyError(HostsKey)
  {
    if Included(h) {
      var d2 := BeforeGroups(d, h);
      AppendedAllFails(d2, GroupKeys(h.groups), h.host);
      if AppendedAll(d2, GroupKeys(h.groups), h.host).Ok? {
        TemplateKeysReserved(h.parentTemplates);
        AppendedAllFails(AppendedAll(d2, GroupKeys(h.groups), h.host).value, TemplateKeys(h.parentTemplates), h.host);
      }
    }
  }

  /** One host's iteration sets its hostvars entry when its address differs from its name, and changes nothing else there. */
  lemma WithHostHostvars(d: Doc, h: Host)
    requires WithHost(d, h).Ok?
    ensures WithHost(d, h).value.hostvars ==
      if HasHostvar(h) then d.hostvars[h.host := Address(h)] else d.hostvars
  {
    if Included(h) {
      var d2 := BeforeGroups(d, h);
      var d3 := AppendedAll(d2, GroupKeys(h.groups), h.host).value;
      AppendedAllHostvars(d2, GroupKeys(h.groups), h.host);
      AppendedAllHostvars(d3, TemplateKeys(h.parentTemplates), h.host);
    }
  }

  /** The appends of an included host extend a key's list by its occurrences among the host's keys. */
  lemma IncludedListAt(d: Doc, h: Host, k: string, d3: Doc, d': Doc)
    requires Included(h)
    requires AppendedAll(BeforeGroups(d, h), GroupKeys(h.groups), h.host) == Ok(d3)
    requires AppendedAll(d3, TemplateKeys(h.parentTemplates), h.host) == Ok(d')
    ensures HostList(d'.groups, k) == HostList(d.groups, k) + Repeat(h.host, Occurrences(h, k))
  {
    var name, gk, tk := h.host, GroupKeys(h.groups), TemplateKeys(h.parentTemplates);
    var d2 := BeforeGroups(d, h);
    var l0, l1, l2, l3 := HostList(d.groups, k), HostList(d2.groups, k), HostList(d3.groups, k), HostList(d'.groups, k);
    var dflt, ng, nt := DefaultCount(k), multiset(gk)[k], multiset(tk)[k];
    BeforeGroupsListAt(d, h, k);
    AppendedAllListAt(d2, gk, name, k, d3);
    AppendedAllListAt(d3, tk, name, k, d');
    RepeatExtend(l0, l1, l2, name, dflt, ng, dflt + ng);
    RepeatExtend(l0, l2, l3, name, dflt + ng, nt, Occurrences(h, k));
  }

  /** One host's iteration extends a key's list by the host's contribution, at its end. */
  lemma WithHostListAt(d: Doc, h: Host, k: string)
    requires WithHost(d, h).Ok?
    ensures HostList(WithHost(d, h).value.groups, k) == HostList(d.groups, k) + Contribution(h, k)
  {
    if Included(h) {
      var d3 := AppendedAll(BeforeGroups(d, h), GroupKeys(h.groups), h.host).value;
      IncludedListAt(d, h, k, d3, WithHost(d, h).value);
    } else {
      assert WithHost(d, h) == Ok(d);
    }
  }

  /** After one host's iteration a key exists exactly when it existed before or the host contributes to it. */
  lemma WithHostKeys(d: Doc, h: Host)
    requires WithHost(d, h).Ok?
    ensures forall k :: k in WithHost(d, h).value.groups <==> k in d.groups || |Contribution(h, k)| > 0
  {
    if Included(h) {
      var name, gk, tk := h.host, GroupKeys(h.groups), TemplateKeys(h.parentTemplates);
      var d2 := BeforeGroups(d, h);
      var d3 := AppendedAll(d2, gk, name).value;
      AppendedAllKeys(d2, gk, name);
      AppendedAllKeys(d3, tk, name);
      forall k
        ensures |Contribution(h, k)| == Occurrences(h, k)
      {
        RepeatShape(name, Occurrences(h, k));
      }
    }
  }

  /** A host that does not raise adds nothing under `_meta`. */
  lemma NoMetaContribution(h: Host)
    requires !HitsMeta(h)
    ensures Contribution(h, MetaKey) == []
  {
    if Included(h) {
      TemplateKeysReserved(h.parentTemplates);
      assert Occurrences(h, MetaKey) == 0;
    }
  }

  /** The whole pass raises, with KeyError('hosts'), exactly when some included host has a group named `_meta`. */
  lemma {:induction false} FlattenFails(hosts: seq<Host>)
    ensures Flatten(hosts).Err? <==> exists i :: 0 <= i < |hosts| && HitsMeta(hosts[i])
    ensures Flatten(hosts).Err? ==> Flatten(hosts).error == KeyError(HostsKey)
    decreases |hosts|
  {
    if hosts != [] {
      var prefix, last := hosts[..|hosts| - 1], hosts[|hosts| - 1];
      FlattenFails(prefix);
      if Flatten(prefix).Err? {
        var i :| 0 <= i < |prefix| && HitsMeta(prefix[i]);
        assert HitsMeta(hosts[i]);
      } else {
        WithHostFails(Flatten(prefix).value, last);
        if Flatten(hosts).Ok? {
          forall i | 0 <= i < |hosts|
            ensures !HitsMeta(hosts[i])
          {
            if i < |prefix| {
              assert hosts[i] == prefix[i];
            }
          }
        }
      }
    }
  }

  /** A document the pass completes keeps the default group and never has `_meta` as a group entry. */
  lemma {:induction false} FlattenWellFormed(hosts: seq<Host>)
    requires Flatten(hosts).Ok?
    ensures WellFormed(Flatten(hosts).value)
    decreases |hosts|
  {
    if hosts != [] {
      var prefix, last := hosts[..|hosts| - 1], hosts[|hosts| - 1];
      var d0 := Flatten(prefix).value;
      FlattenWellFormed(prefix);
      WithHostFails(d0, last);
      WithHostKeys(d0, last);
      NoMetaContribution(last);
    }
  }

  /** After the pass a key's list is the hosts' contributions to it, in input order. */
  lemma {:induction false} FlattenListAt(hosts: seq<Host>, k: string)
    requires Flatten(hosts).Ok?
    ensures HostList(Flatten(hosts).value.groups, k) == Expected(hosts, k)
    decreases |hosts|
  {
    if hosts != [] {
      var prefix, last := hosts[..|hosts| - 1], hosts[|hosts| - 1];
      FlattenListAt(prefix, k);
      WithHostListAt(Flatten(prefix).value, last, k);
    }
  }

  /** After the pass the keys present are the default group and exactly those with a non-empty list. */
  lemma {:induction false} FlattenKeys(hosts: seq<Host>)
    requires Flatten(hosts).Ok?
    ensures forall k :: k in Flatten(hosts).value.groups <==> k == DefaultGroup || |Expected(hosts, k)| > 0
    decreases |hosts|
  {
    if hosts != [] {
      var prefix, last := hosts[..|hosts| - 1], hosts[|hosts| - 1];
      FlattenKeys(prefix);
      WithHostKeys(Flatten(prefix).value, last);
    }
  }

  /** An included host that sets a hostvars entry which no later host of the same name overwrites. */
  predicate LastHostvarSource(hosts: seq<Host>, i: int)
  {
    0 <= i < |hosts| && HasHostvar(hosts[i]) &&
    forall j :: i < j < |hosts| && hosts[j].host == hosts[i].host ==> !HasHostvar(hosts[j])
  }

  /**
   * After the pass, a name has a hostvars entry exactly when some included
   * host of that name has an address different from the name.
   */
  lemma {:induction false} FlattenHostvarKeys(hosts: seq<Host>, n: string)
    requires Flatten(hosts).Ok?
    ensures n in Flatten(hosts).value.hostvars <==>
      exists i :: 0 <= i < |hosts| && HasHostvar(hosts[i]) && hosts[i].host == n
    decreases |hosts|
  {
    if hosts != [] {
      var prefix, last := hosts[..|hosts| - 1], hosts[|hosts| - 1];
      var d0 := Flatten(prefix).value;
      FlattenHostvarKeys(prefix, n);
      WithHostHostvars(d0, last);
      if n in d0.hostvars {
        var i :| 0 <= i < |prefix| && HasHostvar(prefix[i]) && prefix[i].host == n;
        assert hosts[i] == prefix[i];
      }
      if exists i :: 0 <= i < |hosts| && HasHostvar(hosts[i]) && hosts[i].host == n {
        var i :| 0 <= i < |hosts| && HasHostvar(hosts[i]) && hosts[i].host == n;
        if i < |prefix| {
          assert prefix[i] == hosts[i];
        }
      }
    }
  }

  /** After the pass, the hostvars entry of a name holds the address of the last host that set it. */
  lemma {:induction false} FlattenHostvarValue(hosts: seq<Host>, i: int)
    requires Flatten(hosts).Ok?
    requires LastHostvarSource(hosts, i)
    ensures hosts[i].host in Flatten(hosts).value.hostvars
    ensures Flatten(hosts).value.hostvars[hosts[i].host] == Address(hosts[i])
    decreases |hosts|
  {
    var prefix, last := hosts[..|hosts| - 1], hosts[|hosts| - 1];
    var d0 := Flatten(prefix).value;
    WithHostHostvars(d0, last);
    if i < |prefix| {
      assert prefix[i] == hosts[i];
      assert LastHostvarSource(prefix, i);
      FlattenHostvarValue(prefix, i);
      assert !(HasHostvar(last) && last.host == hosts[i].host);
    }
  }
}
