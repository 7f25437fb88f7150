/*
 * The flattening pass as the exporter runs it: a dictionary built in place,
 * one host record at a time, by appending host names to lists that are
 * created when first needed.
 */
module Flattener {
  import opened Topology
  import opened Document

  /** Each key appended under keeps its position when one more key follows. */
  lemma AppendedAllSnoc(d: Doc, keys: seq<string>, key: string, name: string)
    ensures AppendedAll(d, keys + [key], name) ==
      match AppendedAll(d, keys, name)
      case Err(e) => Err(e)
      case Ok(d1) => Appended(d1, key, name)
  {
    assert (keys + [key])[..|keys|] == keys;
  }

  lemma GroupKeysSnoc(gs: seq<Group>, i: nat)
    requires i < |gs|
    ensures GroupKeys(gs[..i + 1]) == GroupKeys(gs[..i]) + [gs[i].name]
  {
  }

  lemma TemplateKeysSnoc(ts: seq<Template>, i: nat)
    requires i < |ts|
    ensures TemplateKeys(ts[..i + 1]) == TemplateKeys(ts[..i]) + [TemplateKey(ts[i].name)]
  {
  }

  /** Once a prefix of the hosts raises, the whole pass raises the same error. */
  lemma FlattenStopsAtError(hosts: seq<Host>, m: nat)
    requires m <= |hosts|
    requires Flatten(hosts[..m]).Err?
    ensures Flatten(hosts) == Flatten(hosts[..m])
  {
    FlattenFails(hosts[..m]);
    FlattenFails(hosts);
    var i :| 0 <= i < m && HitsMeta(hosts[..m][i]);
    assert HitsMeta(hosts[i]);
  }

  /**
   * The `data` dictionary of the pass: `hostvars` is `data['_meta']['hostvars']`
   * and `groups[k]` is `data[k]['hosts']` for every other key `k`.
   */
  class InventoryData {
    var hostvars: map<string, string>
    var groups: map<string, seq<string>>

    function Value(): Doc
      reads this
    {
      Doc(hostvars, groups)
    }

    ghost predicate Valid()
      reads this
    {
      WellFormed(Value())
    }

    /** The document with an empty hostvars map and an empty default-group list. */
    constructor ()
      ensures Valid()
      ensures hostvars == map[]
      ensures groups == map[DefaultGroup := []]
      ensures Value() == Initial()
    {
      hostvars := map[];
      groups := map[DefaultGroup := HostStub()];
    }

    /**
     * Create the key's entry from the stub when the document lacks the key,
     * then append the host name to its list. `_meta` is a key of the document,
     * so it is not created, and its entry has no host list: KeyError('hosts').
     */
    method Append(key: string, hostname: string) returns (err: Option<Error>)
      requires Valid()
      modifies this
      ensures Valid()
      ensures hostvars == old(hostvars)
      ensures key == MetaKey ==> err == Some(KeyError(HostsKey)) && groups == old(groups)
      ensures key != MetaKey ==>
        err == None && groups == old(groups)[key := HostList(old(groups), key) + [hostname]]
      ensures Appended(old(Value()), key, hostname) == if err.None? then Ok(Value()) else Err(err.value)
    {
      var present := key == MetaKey || key in groups;
      if !present {
        groups := groups[key := HostStub()];
      }
      if key == MetaKey {
        return Some(KeyError(HostsKey));
      }
      groups := groups[key := groups[key] + [hostname]];
      return None;
    }

    /**
     * One iteration of the host loop. The host is skipped unless its first
     * interface yields a truthy address; otherwise it is listed under the
     * default group, given a hostvars entry when its address differs from
     * its name, and appended under each group and each parent template.
     */
    method AddHost(h: Host) returns (err: Option<Error>)
      requires Valid()
      modifies this
      ensures Valid()
      ensures WithHost(old(Value()), h) == if err.None? then Ok(Value()) else Err(err.value)
    {
      var address := ScanInterfaces(h.interfaces);
      if !Truthy(address) {
        assert WithHost(old(Value()), h) == Ok(Value());
        return None;
      }
      var hostname := h.host;
      groups := groups[DefaultGroup := groups[DefaultGroup] + [hostname]];
      if address.value != hostname {
        hostvars := hostvars[hostname := address.value];
      }
      ghost var d2 := Value();
      assert d2 == BeforeGroups(old(Value()), h);

      err := None;
      for i := 0 to |h.groups|
        invariant Valid()
        invariant err == None
        invariant AppendedAll(d2, GroupKeys(h.groups[..i]), hostname) == Ok(Value())
      {
        GroupKeysSnoc(h.groups, i);
        AppendedAllSnoc(d2, GroupKeys(h.groups[..i]), h.groups[i].name, hostname);
        err := Append(h.groups[i].name, hostname);
        if err.Some? {
          AppendedAllFails(d2, GroupKeys(h.groups), hostname);
          assert GroupKeys(h.groups)[i] == MetaKey;
          assert WithHost(old(Value()), h) == Err(KeyError(HostsKey));
          return;
        }
      }
      assert h.groups[..|h.groups|] == h.groups;

      ghost var d3 := Value();
      for j := 0 to |h.parentTemplates|
        invariant Valid()
        invariant err == None
        invariant AppendedAll(d3, TemplateKeys(h.parentTemplates[..j]), hostname) == Ok(Value())
      {
        var templatename := TemplateKey(h.parentTemplates[j].name);
        TemplateKeysSnoc(h.parentTemplates, j);
        AppendedAllSnoc(d3, TemplateKeys(h.parentTemplates[..j]), templatename, hostname);
        err := Append(templatename, hostname);
      }
      assert h.parentTemplates[..|h.parentTemplates|] == h.parentTemplates;
      assert WithHost(old(Value()), h) == Ok(Value());
    }
  }

  /**
   * The flattening pass: start from the empty document and process the host
   * records in order; a KeyError raised by any of them ends the pass.
   */
  method GetList(hosts: seq<Host>) returns (result: Result<Doc>)
    ensures result == Flatten(hosts)
  {
    var data := new InventoryData();
    for i := 0 to |hosts|
      invariant data.Valid()
      invariant Flatten(hosts[..i]) == Ok(data.Value())
    {
      assert hosts[..i + 1][..i] == hosts[..i];
      var err := data.AddHost(hosts[i]);
      if err.Some? {
        FlattenStopsAtError(hosts, i + 1);
        return Err(err.value);
      }
    }
    assert hosts[..|hosts|] == hosts;
    return Ok(data.Value());
  }
}
