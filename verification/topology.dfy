/*
 * The host records the inventory exporter receives from the monitoring
 * server's bulk host query, and the per-host rules the flattener applies to
 * them: which interface is examined, which address is chosen, when a host is
 * skipped, and how a parent template's name becomes a group key.
 */
module Topology {

  datatype Option<T> = None | Some(value: T)

  /** One network interface of a host: its kind tag, DNS name and IP address. */
  datatype Interface = Interface(kind: string, dns: string, ip: string)

  datatype Group = Group(name: string)

  datatype Template = Template(name: string)

  /** A host record as returned with its interfaces, groups and parent templates. */
  datatype Host = Host(
    host: string,
    interfaces: seq<Interface>,
    groups: seq<Group>,
    parentTemplates: seq<Template>)

  /** Kind tag of a monitoring-agent interface. */
  const AgentType: string := "1"

  /** The default group every included host is listed under. */
  const DefaultGroup: string := "group_all"

  /** The reserved document key that holds the per-host variables. */
  const MetaKey: string := "_meta"

  /** Marker prefixed to a parent template's name to form its group key. */
  const TemplatePrefix: string := "templ_"

  /** The address an interface offers: its DNS name when non-empty, else its IP. */
  function ResolvedAddress(iface: Interface): string
  {
    if iface.dns != "" then iface.dns else iface.ip
  }

  /**
   * The value the interface scan leaves in the host's address variable: only
   * the first interface is looked at, and it yields an address only when it
   * is an agent interface.
   */
  function AgentAddress(interfaces: seq<Interface>): Option<string>
  {
    if |interfaces| > 0 && interfaces[0].kind == AgentType
    then Some(ResolvedAddress(interfaces[0]))
    else None
  }

  /** Python truthiness of the address variable: not None and not empty. */
  predicate Truthy(address: Option<string>)
  {
    address.Some? && address.value != ""
  }

  /** A host survives the skip test and is placed in the inventory. */
  predicate Included(h: Host)
  {
    Truthy(AgentAddress(h.interfaces))
  }

  /** The resolved address of an included host. */
  function Address(h: Host): string
    requires Included(h)
  {
    AgentAddress(h.interfaces).value
  }

  /** An included host whose address differs from its name gets a hostvars entry. */
  predicate HasHostvar(h: Host)
  {
    Included(h) && Address(h) != h.host
  }

  /**
   * The interface loop of the exporter: it inspects the current interface and
   * leaves the loop after the first iteration whatever the type test gave.
   */
  method ScanInterfaces(interfaces: seq<Interface>) returns (address: Option<string>)
    ensures address.Some? <==> |interfaces| > 0 && interfaces[0].kind == AgentType
    ensures address.Some? && interfaces[0].dns != "" ==> address.value == interfaces[0].dns
    ensures address.Some? && interfaces[0].dns == "" ==> address.value == interfaces[0].ip
    ensures address == AgentAddress(interfaces)
  {
    address := None;
    for i := 0 to |interfaces|
      invariant i == 0
      invariant address == None
    {
      var iface := interfaces[i];
      if iface.kind == AgentType {
        if iface.dns != "" {
          address := Some(iface.dns);
        } else {
          address := Some(iface.ip);
        }
      }
      break;
    }
  }

  /** A host is included exactly when its first interface is an agent interface with a DNS name or an IP. */
  lemma IncludedIff(h: Host)
    ensures Included(h) <==>
      |h.interfaces| > 0 && h.interfaces[0].kind == AgentType &&
      (h.interfaces[0].dns != "" || h.interfaces[0].ip != "")
  {
  }

  /** The address of an included host prefers the first interface's DNS name and is never empty. */
  lemma AddressPrefersDns(h: Host)
    requires Included(h)
    ensures Address(h) != ""
    ensures h.interfaces[0].dns != "" ==> Address(h) == h.interfaces[0].dns
    ensures h.interfaces[0].dns == "" ==> Address(h) == h.interfaces[0].ip
  {
  }

  /** A host whose first interface is not an agent interface is skipped, whatever follows it. */
  lemma LaterAgentInterfaceIgnored(h: Host)
    requires |h.interfaces| > 0 && h.interfaces[0].kind != AgentType
    ensures !Included(h)
    ensures forall rest: seq<Interface> :: AgentAddress([h.interfaces[0]] + rest) == None
  {
  }

  function SpaceToUnderscore(c: char): char
  {
    if c == ' ' then '_' else c
  }

  /** The string with every space replaced by an underscore, as Python's replace(' ', '_'). */
  function ReplaceSpaces(s: string): (r: string)
    ensures |r| == |s|
    ensures forall i :: 0 <= i < |s| ==> r[i] == SpaceToUnderscore(s[i])
    ensures ' ' !in r
  {
    if s == [] then [] else [SpaceToUnderscore(s[0])] + ReplaceSpaces(s[1..])
  }

  /** The group key of a parent template: the prefix, then the name with spaces turned into underscores. */
  function TemplateKey(name: string): (key: string)
    ensures |key| == |TemplatePrefix| + |name|
    ensures key[..|TemplatePrefix|] == TemplatePrefix
    ensures forall i :: 0 <= i < |name| ==>
      key[|TemplatePrefix| + i] == SpaceToUnderscore(name[i])
    ensures ' ' !in key
    ensures key != DefaultGroup && key != MetaKey
  {
    var r := ReplaceSpaces(name);
    var key := TemplatePrefix + r;
    assert forall i :: 0 <= i < |r| ==> key[|TemplatePrefix| + i] == r[i];
    assert key[0] == 't';
    key
  }

  /** A space-free name keeps its spelling under the prefix. */
  lemma TemplateKeyWithoutSpaces(name: string)
    requires ' ' !in name
    ensures TemplateKey(name) == TemplatePrefix + name
  {
    var r := ReplaceSpaces(name);
    forall i | 0 <= i < |name|
      ensures r[i] == name[i]
    {
      assert name[i] != ' ';
    }
    assert r == name;
  }

  /** A two-word name such as "App Server" becomes the prefix, then the words joined by an underscore. */
  lemma TemplateKeyOfTwoWords(a: string, b: string)
    requires ' ' !in a && ' ' !in b
    ensures TemplateKey(a + " " + b) == TemplatePrefix + a + "_" + b
  {
    var name, joined := a + " " + b, a + "_" + b;
    var r := ReplaceSpaces(name);
    forall i | 0 <= i < |name|
      ensures r[i] == joined[i]
    {
      if i < |a| {
        assert name[i] == a[i] && joined[i] == a[i];
      } else if i > |a| {
        assert name[i] == b[i - |a| - 1] && joined[i] == b[i - |a| - 1];
      }
    }
    assert r == joined;
    assert TemplateKey(name) == TemplatePrefix + joined;
  }
}
