/*
 * Small host lists evaluated through `Flatten`, one for each rule of the
 * pass: an agent host with a DNS name, a host without an agent
 * interface, a group named `_meta`, and a group named like the default group.
 */
module Scenarios {
  import opened Topology
  import opened Document

  /** An agent host whose DNS name differs from its name: listed under the default group and under its group, with a hostvars entry. */
  lemma AgentHostWithDns()
    ensures Flatten([Host("h1", [Interface("1", "h1.local", "10.0.0.1")], [Group("prod")], [])])
      == Ok(Doc(map["h1" := "h1.local"], map[DefaultGroup := ["h1"], "prod" := ["h1"]]))
  {
    var h := Host("h1", [Interface("1", "h1.local", "10.0.0.1")], [Group("prod")], []);
    var d2 := Doc(map["h1" := "h1.local"], map[DefaultGroup := ["h1"]]);
    var d3 := Doc(map["h1" := "h1.local"], map[DefaultGroup := ["h1"], "prod" := ["h1"]]);
    assert Address(h) == "h1.local";
    assert HostList(Initial().groups, DefaultGroup) + [h.host] == ["h1"];
    assert Initial().groups[DefaultGroup := ["h1"]] == d2.groups;
    assert BeforeGroups(Initial(), h) == d2;
    assert GroupKeys(h.groups) == ["prod"];
    assert ["prod"][..0] == [];
    assert Appended(d2, "prod", "h1") == Ok(d3);
    assert AppendedAll(d2, ["prod"], "h1") == Ok(d3);
    assert TemplateKeys(h.parentTemplates) == [];
    assert [h][..0] == [];
  }

  /** A host whose only interface is not an agent interface leaves the document as it was. */
  lemma NonAgentHostSkipped()
    ensures Flatten([Host("h2", [Interface("2", "", "10.0.0.2")], [Group("prod")], [])]) == Ok(Initial())
  {
    var h := Host("h2", [Interface("2", "", "10.0.0.2")], [Group("prod")], []);
    assert [h][..0] == [];
    assert !Included(h);
  }

  /** An agent host in a group named `_meta` makes the pass raise KeyError('hosts'). */
  lemma MetaGroupRaises()
    ensures Flatten([Host("h3", [Interface("1", "", "10.0.0.3")], [Group(MetaKey)], [])])
      == Err(KeyError(HostsKey))
  {
    var h := Host("h3", [Interface("1", "", "10.0.0.3")], [Group(MetaKey)], []);
    assert [h][..0] == [];
    assert GroupKeys(h.groups) == [MetaKey];
    WithHostFails(Initial(), h);
  }

  /** An agent host in a group named like the default group is listed twice under it. */
  lemma DefaultGroupMemberListedTwice()
    ensures Flatten([Host("h4", [Interface("1", "", "h4")], [Group(DefaultGroup)], [])])
      == Ok(Doc(map[], map[DefaultGroup := ["h4", "h4"]]))
  {
    var h := Host("h4", [Interface("1", "", "h4")], [Group(DefaultGroup)], []);
    var d2 := Doc(map[], map[DefaultGroup := ["h4"]]);
    var d3 := Doc(map[], map[DefaultGroup := ["h4", "h4"]]);
    assert Address(h) == "h4";
    assert HostList(Initial().groups, DefaultGroup) + [h.host] == ["h4"];
    assert Initial().groups[DefaultGroup := ["h4"]] == d2.groups;
    assert BeforeGroups(Initial(), h) == d2;
    assert HostList(d2.groups, DefaultGroup) + ["h4"] == ["h4", "h4"];
    assert d2.groups[DefaultGroup := ["h4", "h4"]] == d3.groups;
    assert DefaultGroup != MetaKey;
    assert GroupKeys(h.groups) == [DefaultGroup];
    assert [DefaultGroup][..0] == [];
    assert Appended(d2, DefaultGroup, "h4") == Ok(d3);
    assert AppendedAll(d2, [DefaultGroup], "h4") == Ok(d3);
    assert TemplateKeys(h.parentTemplates) == [];
    assert [h][..0] == [];
  }
}
