# Zabbix inventory flattener

The Zabbix external inventory script asks a Zabbix server for its hosts and
prints an Ansible dynamic-inventory document. This project models the core of
that script, `ZabbixInventory.get_list` together with `hoststub`. That core
turns the host records returned by the server's bulk host query into the
document, which holds:

- `_meta.hostvars`: a map from host name to its `ansible_host` address;
- one entry per group key, each holding a list of host names under `hosts`.

The pass visits the host records in order. For each host it examines only the
**first** interface. The host is skipped unless that interface is a Zabbix
agent interface (type `"1"`) whose DNS name, or else IP address, is non-empty.
An included host is then:

1. appended to the `group_all` list;
2. given a hostvars entry when its address differs from its name;
3. appended under the name of each of its groups, creating the entry from the
   stub `{'hosts': []}` when the name is new;
4. appended under the key `templ_` + its name with spaces replaced by
   underscores, for each of its parent templates.

A group named `_meta` reaches the document's own `_meta` entry. That entry has
no `hosts` list, so the pass raises `KeyError('hosts')`.

Files:

- `topology.dfy` (module `Topology`): the host records and the per-host rules.
  These cover the interface scan (a method with the source's loop), the
  inclusion test, the address choice and the template key.
- `document.dfy` (module `Document`): the document as a value and the pass as
  a function `Flatten`. `Flatten` is defined from the last host backwards.
  Beside it:
  - a key-by-key characterisation: each list is the concatenation of every
    host's contribution, in input order;
  - the exact error condition;
  - the hostvars contents.
- `flattener.dfy` (module `Flattener`): the pass as the source runs it. A
  class `InventoryData` holds the mutable dictionary, and its methods append
  in place. `GetList` loops over the hosts and is proved equal to `Flatten`.
- `properties.dfy` (module `Properties`): what the document promises its
  consumer, derived from the characterisation:
  - default-group membership and its multiplicity;
  - group and template membership;
  - skipped hosts leaving no trace;
  - hostvars entries;
  - monotone growth.
- `scenarios.dfy` (module `Scenarios`): small concrete host lists evaluated
  through `Flatten`.

The model follows the code as written, including three cases a reader may
not expect:

- The comment at zabbix-inventory.py:119 looks for agent hosts, but the
  `break` at zabbix-inventory.py:124 leaves the loop after the first
  interface whatever its type, so a host whose agent interface is not first
  is skipped (`Topology.LaterAgentInterfaceIgnored`).
- A group named `group_all` lists its hosts twice under `group_all`
  (`Scenarios.DefaultGroupMemberListedTwice`).
- A group named `_meta` raises `KeyError('hosts')` (`Document.FlattenFails`).

A raised KeyError is modelled as the `Err(KeyError("hosts"))` result of
`Flatten` and `GetList`, and as the `Some(KeyError("hosts"))` result of
`Append` and `AddHost`. The hostvars value
`{'ansible_host': address}` is modelled as the address string. Host names,
group names and addresses are strings (`seq<char>`).

## Model

| member | source | states |
|---|---|---|
| Topology.ScanInterfaces | zabbix-inventory.py:115-124 | the loop yields an address exactly when the first interface has type "1": its DNS name if non-empty, else its IP; later interfaces are never read |
| Topology.IncludedIff | zabbix-inventory.py:118-126 | a host is kept exactly when its first interface is an agent interface with a non-empty DNS name or IP |
| Topology.AddressPrefersDns | zabbix-inventory.py:120-123 | the address of a kept host is non-empty and is the DNS name when that is non-empty, otherwise the IP |
| Topology.LaterAgentInterfaceIgnored | zabbix-inventory.py:118-126 | a host whose first interface is not an agent interface is skipped whatever interfaces follow |
| Topology.ReplaceSpaces | zabbix-inventory.py:141 | same length, every space becomes an underscore, every other character is kept, and no space remains |
| Topology.TemplateKey | zabbix-inventory.py:141 | the key is "templ_" followed by the name with spaces turned into underscores; it contains no space and never equals "group_all" or "_meta" |
| Topology.TemplateKeyWithoutSpaces | zabbix-inventory.py:141 | a space-free template name keeps its spelling after the prefix |
| Topology.TemplateKeyOfTwoWords | zabbix-inventory.py:141 | "A B" becomes "templ_A_B" for any space-free words A and B |
| Document.TemplateKeysReserved | zabbix-inventory.py:140-146 | no template key is `_meta` or `group_all` |
| Document.AppendedAllFails | zabbix-inventory.py:132-138 | appending under a run of keys raises KeyError('hosts') exactly when `_meta` is among them |
| Document.AppendedAllHostvars | zabbix-inventory.py:132-146 | group and template appends never touch hostvars |
| Document.AppendedAllKeys | zabbix-inventory.py:135-136 | after the appends a key exists exactly when it existed before or was appended under |
| Document.AppendedAllListAt | zabbix-inventory.py:132-138 | each key's list is extended at its end by the name once per occurrence of the key among those appended under |
| Document.BeforeGroupsListAt | zabbix-inventory.py:128 | the default-group append adds the name once under `group_all` and nowhere else |
| Document.WithHostFails | zabbix-inventory.py:126-146 | one host's iteration raises KeyError('hosts') exactly when the host is kept and has a group named `_meta` |
| Document.WithHostHostvars | zabbix-inventory.py:129-130 | a host's iteration sets its own hostvars entry to its address when that differs from its name and changes no other entry |
| Document.IncludedListAt | zabbix-inventory.py:128-146 | a kept host extends each key's list by its name, once per time the key is the default group, one of its groups or one of its template keys |
| Document.WithHostListAt | zabbix-inventory.py:114-146 | one iteration extends every key's list at its end by that host's contribution and by nothing else |
| Document.WithHostKeys | zabbix-inventory.py:128-146 | after one iteration a key exists exactly when it existed before or the host is listed under it |
| Document.NoMetaContribution | zabbix-inventory.py:132-138 | a host that does not raise adds nothing under `_meta` |
| Document.FlattenFails | zabbix-inventory.py:110-148 | the pass raises KeyError('hosts') exactly when some kept host has a group named `_meta` |
| Document.FlattenWellFormed | zabbix-inventory.py:110-112 | a completed document always has `group_all` and never has `_meta` as a group entry |
| Document.FlattenListAt | zabbix-inventory.py:110-148 | every key's final list is the concatenation, in input order, of each kept host's name repeated once per listing under that key |
| Document.FlattenKeys | zabbix-inventory.py:110-148 | the final keys are `group_all` and exactly the keys with a non-empty list |
| Document.FlattenHostvarKeys | zabbix-inventory.py:129-130 | a name has a hostvars entry exactly when some kept host of that name has an address different from its name |
| Document.FlattenHostvarValue | zabbix-inventory.py:129-130 | the entry holds the address of the last such host of that name |
| Flattener.FlattenStopsAtError | zabbix-inventory.py:114-148 | once a prefix of the hosts raises, the whole pass raises the same error |
| Flattener.InventoryData.constructor | zabbix-inventory.py:110-112 | the dictionary starts with empty hostvars and with `group_all` holding the empty list of the `hoststub` entry (lines 85-88) |
| Flattener.InventoryData.Append | zabbix-inventory.py:133-138 | a missing key is created from the stub and the name is appended at its end; `_meta` raises KeyError('hosts') with the groups unchanged; hostvars are unchanged |
| Flattener.InventoryData.AddHost | zabbix-inventory.py:115-146 | one iteration of the host loop, done in place, leaves exactly the document (or the error) that `WithHost` specifies |
| Flattener.GetList | zabbix-inventory.py:110-148 | the in-place pass returns exactly `Flatten(hosts)`, the document or the KeyError |
| Properties.IncludedNamesMembership | zabbix-inventory.py:126 | a name is among the kept names exactly when some kept host carries it |
| Properties.DefaultGroupOccurrences | zabbix-inventory.py:128-146 | a kept host is listed under `group_all` once, plus once per group of its own named `group_all` |
| Properties.ExpectedDefaultGroup | zabbix-inventory.py:128 | with no group named `group_all`, the expected `group_all` list is the kept names in input order |
| Properties.DefaultGroupListsIncludedHosts | zabbix-inventory.py:110-148 | with no group named `group_all`, the final `group_all` list is exactly the kept host names in input order |
| Properties.IncludedNamesCount | zabbix-inventory.py:126-128 | with unique host names, each host's name occurs once among the kept names if it is kept, otherwise not at all |
| Properties.ListedOnceInDefaultGroup | zabbix-inventory.py:110-148 | with unique names and no group named `group_all`, a kept host occurs exactly once in `group_all` and a skipped one never |
| Properties.ContributionMembership | zabbix-inventory.py:128-146 | a name is in a host's contribution to a key exactly when the host is kept, has that name and is listed under the key |
| Properties.ExpectedSource | zabbix-inventory.py:114-146 | every name in a key's list comes from a kept host of that name listed under the key |
| Properties.ExpectedIncludes | zabbix-inventory.py:114-146 | a kept host listed under a key puts its name in that key's list |
| Properties.ExpectedMembership | zabbix-inventory.py:114-146 | a name is in a key's list exactly when a kept host of that name is listed under that key |
| Properties.ListedUnder | zabbix-inventory.py:110-148 | a kept host listed under a key appears in the final list of that key, and the key exists |
| Properties.GroupMembership | zabbix-inventory.py:132-138 | a kept host appears in the final list of each of its groups |
| Properties.TemplateMembership | zabbix-inventory.py:140-146 | a kept host appears in the final list of each of its parent templates' keys |
| Properties.SkippedHostAbsent | zabbix-inventory.py:126 | a name carried only by skipped hosts is in no list and has no hostvars entry |
| Properties.HostvarEntry | zabbix-inventory.py:129-130 | with unique names, a kept host has a hostvars entry exactly when its address differs from its name, and the entry is that address |
| Properties.WithHostGrowsOnly | zabbix-inventory.py:114-146 | one iteration removes no key, only extends lists at their end and changes no hostvars entry but its own |
| Properties.ExpectedPrefix | zabbix-inventory.py:114-146 | the lists expected after the first m hosts are prefixes of the final ones |
| Properties.FlattenPrefixGrows | zabbix-inventory.py:110-148 | when the pass completes, the document after any prefix of the hosts also completes and is contained in the final one, key by key and as list prefixes |
| Scenarios.AgentHostWithDns | zabbix-inventory.py:110-148 | an agent host with DNS name h1.local and group prod yields hostvars h1 → h1.local and the lists group_all = [h1], prod = [h1] |
| Scenarios.NonAgentHostSkipped | zabbix-inventory.py:118-126 | a host whose only interface has type "2" leaves the initial document |
| Scenarios.MetaGroupRaises | zabbix-inventory.py:132-138 | an agent host in a group named `_meta` makes the pass raise KeyError('hosts') |
| Scenarios.DefaultGroupMemberListedTwice | zabbix-inventory.py:128-138 | an agent host in a group named `group_all` is listed twice under it and, its address being its name, gets no hostvars entry |

## Left out

- `read_settings` and `read_cli`: reading `zabbix.ini` and the command line is configuration I/O.
- `__init__`: the login, the dispatch on `--host` / `--list`, the exit on login failure, and printing the document.
- The server queries at zabbix-inventory.py:95-105, including the `ZABBIX_TEMPLATES` template filter: they are network calls. The model takes the host records they return as its input.
- The debug dumps at zabbix-inventory.py:107-108 and 117: they only print.
- `get_host`: it always returns an empty dictionary and is not part of the flattening pass.
- JSON serialisation, dictionary key order and the `{'ansible_host': …}` wrapper: keys are compared as map keys and a hostvars value is the address string.
- The partial document left in `data` when the KeyError propagates: the caller never receives it, so `Flatten` and `GetList` return only the error.
- Malformed records (a missing `host`, `interfaces`, `type`, `dns` or `ip` field, or a value that is not a string): records are typed, so those KeyErrors and TypeErrors are not modelled.
- library/zabbix_ack.py is not part of this model.
