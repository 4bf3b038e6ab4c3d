# tofu inventory engine, modelled in Dafny

This project models the `TerraformInventory` engine of tofu (`tofu/tofu.py`).
The engine turns the Terraform state of an OpenStack deployment into an
Ansible dynamic inventory. It takes the resource table
`modules[0].resources` of the state document and does four things:

- it finds resources by type;
- it follows the cross references from an instance to its floating IPs and
  volumes;
- it builds one host record per compute instance;
- it groups the hosts.

Hosts are grouped in one of three ways:

- by server group;
- by a `group_by` attribute, which defaults to the instance `name`;
- by a comma-separated `groups` attribute.

The output also carries a per-type summary of the resources, under
`tf_resources`.

Modules, in the order they build on each other:

| module | file | what it holds |
|---|---|---|
| `Util` | util.dfy | Python built-ins the engine uses: `filter` on a list, dictionary rebuilding, `str.split`, decimal `int()`, counting |
| `Patterns` | patterns.dfy | the regular expressions of the engine, matched exactly: `.` is any character but a newline, `\d+` is greedy with backtracking, `re.search` finds a match at any position, `re.sub` removes the leftmost non-overlapping matches |
| `PatternFacts` | pattern_facts.dfy | what each pattern does to the key shapes Terraform writes (`network.<i>.<field>`, `attachment.<n>.<field>`, `metadata.<field>`, ...) |
| `State` | state.dfy | the resource table, the attribute dictionaries and the JSON values of the output |
| `Lookup` | lookup.dfy | `get_resources`, `get_floating_ip`, `get_instance`, `get_floating_ip_associations`, `get_volume` (its specification) and `get_volume_attachments` |
| `Summary` | summary.dfy | the specification of `terraform_resources` |
| `Hosts` | hostrecord.dfy | the host record one instance contributes |
| `Groups` | grouping.dfy | adding a host to a group, the server-group groups and the comma-separated fan-out |
| `Assembly` | assembly.dfy | `Run`, the inventory after any prefix of the instance loop, and its properties |
| `Engine` | engine.dfy | class `TerraformInventory`: `get_volume`, `terraform_resources`, `terraform_inventory` and `ansible_inventory` as loop methods proved against those specifications |

Python 2 dictionaries iterate in an order the program does not control, yet
that order decides the order of every list the engine builds. The model
therefore gives each dictionary read from the state an explicit key
sequence: `Table.keys` for the resource table and `Attrs.keys` for each
attribute map. A dictionary the engine builds itself is iterated in
insertion order (the `Groups.Dict` of a server group's vars).

Where the source would crash, the model has a precondition instead:

- a `KeyError` or `AttributeError` from a missing attribute;
- the `IndexError` of `get_instance` when no instance has the id;
- a group key named `_meta`, `all` or `tf_resources`. A `group_by` or
  `groups` key `all` or `tf_resources` reaches the plain dictionaries of
  tofu/tofu.py:253-254, so `group.hosts` raises `AttributeError`
  (tofu/tofu.py:364, 380). The key `_meta` reaches a `Dotable` without
  `hosts`, so the same access raises `KeyError`. A server group of such a
  name does not crash: tofu/tofu.py:338 overwrites the entry, which
  corrupts the document. The model excludes all of these.

These preconditions are the `...Defined` predicates (`RecordDefined`,
`ServerGroupDefined`, `GroupsDefined`, `AllDefined`) and `Groups.Resolves`.
Where the source handles a case itself, the model has the same branch:

- a missing floating IP or volume is `None`;
- `terraform_resources` turns an empty resource family into an empty entry.

### Where the code and the intended behaviour part ways

The code is modelled as written in each of these places.

- Network entries. Entry `i` of `network` collects every key in which
  `network.<i>` occurs, so entry `1` also gets the keys of entry `10`, as
  `.name`. `Hosts.NetworkEntryCrossTalk` and
  `PatternFacts.NetworkOneMatchesTen` state this. The reconstruction
  described for the network family, one object per index, holds only up to
  ten networks.
- Attachment keys. `attachment.\d+.` backtracks, so a volume key
  `attachment.12` is removed entirely (`PatternFacts.StripAttachmentBacktracks`).
- Server groups. They are built inside the instance loop, so a state with
  server groups but no instances has no server-group groups. With
  instances, the server groups are rebuilt on every iteration. Only the
  last rebuild survives, and it replaces any group of the same name
  (`Assembly.ServerGroupLastStep`).
- Server-group vars. A `value_specs.<k>` attribute is kept under both
  `value_specs.<k>` and `<k>`, not only under the stripped name
  (`Groups.ValueSpecsBothKept`).
- Lookups that miss. An association whose floating IP cannot be found
  gives a `None` entry in `floating_ips`, and likewise for `volumes`. The
  list is not emptied (`Lookup.GetFloatingIpAssociations`,
  `Lookup.GetVolumeAttachments`).

## Model

| member | source | states |
|---|---|---|
| Util.Filter | tofu/tofu.py:71 | Python 2 `filter` on a list: exactly the elements that satisfy the predicate, each taken from the input |
| Util.FilterOrdered | tofu/tofu.py:71 | filtering a list without repeats keeps it without repeats and keeps the input order |
| Util.InOrderTrans | tofu/tofu.py:158-163 | a sublist in the order of a list that is itself in table order is in table order |
| Util.FilterHead | tofu/tofu.py:139-146 | a filter is empty exactly when nothing satisfies the predicate; otherwise its head is the first element that does |
| Util.Split | tofu/tofu.py:373 | `str.split(',')` gives at least one part and no part contains the separator |
| Util.SplitJoin | tofu/tofu.py:373 | joining the parts of a split with the separator gives back the string |
| Util.DecimalRoundTrip | tofu/tofu.py:301 | the decimal reading used for `int(...)` of a count inverts the rendering of a natural number |
| Util.Rekeyed | tofu/tofu.py:178-180 | rebuilding a dictionary under renamed keys has exactly the renamed keys of the kept entries |
| Util.RekeyedLast | tofu/tofu.py:178-180 | in a rebuilt dictionary, a renamed key holds the value of the last source key renamed to it |
| Util.AssignLast | tofu/tofu.py:266-269 | after a run of dictionary assignments, a key holds the value of its last assignment |
| Util.AssignKeys | tofu/tofu.py:266-269 | the keys after a run of assignments are the old keys plus the assigned ones |
| Util.Occurrences | tofu/tofu.py:361-386 | the number of times a group key is joined is zero exactly when the key is absent |
| PatternFacts.SearchAt | tofu/tofu.py:71 | `re.search` succeeds exactly when the pattern matches at some position of the key |
| PatternFacts.ContainsIsSubstring | tofu/tofu.py:71 | searching for a type name succeeds exactly when the name occurs as a substring of the resource key |
| PatternFacts.StripAttachmentFragment | tofu/tofu.py:180 | `attachment.<n>.` in front of a volume key is removed |
| PatternFacts.StripAttachmentKeeps | tofu/tofu.py:180 | a volume key without `attachment` is left as it is |
| PatternFacts.StripAttachmentBacktracks | tofu/tofu.py:180 | `attachment.12` is removed entirely, because `\d+` gives back its last digit to the trailing `.` |
| PatternFacts.StripRuleFragment | tofu/tofu.py:229 | `rule.<n>.` in front of a key is removed in the resource summary |
| PatternFacts.StripAttachmentOrRuleFragment | tofu/tofu.py:229 | `attachment.<n>.` in front of a key is removed in the resource summary |
| PatternFacts.StripAttachmentOrRuleKeeps | tofu/tofu.py:229 | a key containing neither `attachment` nor `rule` keeps its name in the summary |
| PatternFacts.NetworkFieldKey | tofu/tofu.py:302-304 | `network.<i>.<field>` is selected for entry `i` and loses its `network.<i>.` prefix |
| PatternFacts.StripNetworkKeeps | tofu/tofu.py:302-304 | a key without `network` is selected for no entry |
| PatternFacts.NetworkOneMatchesTen | tofu/tofu.py:302-304 | `network.10.name` is selected for entry 1 and becomes `.name` there |
| PatternFacts.SchedulerHintFieldKey | tofu/tofu.py:313-315 | `scheduler_hints.<n>.<field>` is a hint key and becomes `<field>` |
| PatternFacts.SecurityGroupKeys | tofu/tofu.py:318-321 | `security_groups.<n>` is a security-group key and the count key `security_groups.#` is not |
| PatternFacts.MembersKeys | tofu/tofu.py:348-351 | `members.<n>` is a member key and the count key `members.#` is not |
| PatternFacts.MetadataFieldKey | tofu/tofu.py:293-297 | `metadata.<field>` and `all_metadata.<field>` are metadata keys and both become `<field>` |
| PatternFacts.StripMetadataKeeps | tofu/tofu.py:295 | a key without `metadata` is not renamed |
| PatternFacts.MetadataCountKey | tofu/tofu.py:296 | the count key `metadata.%` is not a metadata key |
| PatternFacts.AllMetadataCountKey | tofu/tofu.py:296 | the count key `all_metadata.%` is not a metadata key |
| PatternFacts.MetadataPatternTakesListCount | tofu/tofu.py:295-296 | `metadata.#` is selected and becomes `#`, because only `%` is excluded |
| PatternFacts.StripValueSpecsFragment | tofu/tofu.py:342 | `value_specs.` in front of a server-group key is removed |
| PatternFacts.StripValueSpecsKeeps | tofu/tofu.py:342 | a key without `value_specs` is not renamed |
| State.StrMap | tofu/tofu.py:180 | a dictionary of strings as a JSON object has the same keys, each mapped to its string |
| Lookup.GetResources | tofu/tofu.py:70-71 | exactly the table keys in which the type name occurs, without repeats |
| Lookup.GetResourcesOrdered | tofu/tofu.py:70-71 | the keys come in table order |
| Lookup.Matching | tofu/tofu.py:140-144 | exactly the listed resources whose attribute equals the wanted value, without repeats and in the order of the list |
| Lookup.FirstMatch | tofu/tofu.py:145-146 | the match list is empty exactly when nothing matches; otherwise its head is the first match |
| Lookup.GetFloatingIp | tofu/tofu.py:139-146 | None exactly when no floating IP has the address; otherwise the attributes of the first one that does |
| Lookup.GetInstance | tofu/tofu.py:149-155 | the first instance whose `id` is the given one; there must be one, as the source raises `IndexError` otherwise |
| Lookup.Associations | tofu/tofu.py:158-163 | the floating-IP associations whose `instance_id` is the instance's id; their order is stated by `Lookup.LinksOrdered` |
| Lookup.Attachments | tofu/tofu.py:184-189 | the volume attachments whose `instance_id` is the instance's id; their order is stated by `Lookup.LinksOrdered` |
| Lookup.LinksOrdered | tofu/tofu.py:158-189 | an instance's associations and attachments come in table order |
| Lookup.GetFloatingIpAssociations | tofu/tofu.py:158-167 | one entry per association of the instance, in the order of `Lookup.Associations` (table order, by `Lookup.LinksOrdered`), each the lookup of its `floating_ip` |
| Lookup.VolumeAttrs | tofu/tofu.py:178-180 | the volume's keys with the `attachment.\d+.` fragments removed, and nothing else |
| Lookup.Volume | tofu/tofu.py:170-181 | None exactly when no volume has the id; otherwise the first such volume's attributes under rewritten keys |
| Lookup.VolumeAttrsFields | tofu/tofu.py:178-180 | a rewritten key holds the value of the last key rewritten to it; `attachment.<n>.<field>` gives its value to `<field>`; other keys keep their name |
| Lookup.GetVolumeAttachments | tofu/tofu.py:184-193 | one entry per volume attachment of the instance, in the order of `Lookup.Attachments` (table order, by `Lookup.LinksOrdered`), each the lookup of its `volume_id` |
| Summary.ResourceAttrs | tofu/tofu.py:229-232 | a summarised resource's keys are its attribute keys with `attachment.<n>.` and `rule.<n>.` removed |
| Summary.ResourceAttrsFields | tofu/tofu.py:229-232 | each summarised key holds the value of the last attribute rewritten to it; indexed fragments are removed and plain keys kept |
| Summary.EntriesKeys | tofu/tofu.py:224-233 | a family's entries are keyed by each resource's `name`, or by its `id` when it has no name |
| Summary.EntriesLast | tofu/tofu.py:224-233 | an entry holds the summarised attributes of the last resource with that name |
| Summary.TypeSummary | tofu/tofu.py:214-241 | one family's entry of `terraform_resources`: its resources keyed by name or id, or empty where the source takes its catch-all; stated by `Summary.TypeSummaryKeys` and `Summary.TypeSummaryEntry` |
| Summary.TypeSummaryKeys | tofu/tofu.py:214-241 | a family with no resources, or with a resource that has neither name nor id, is summarised as empty; otherwise by name or id |
| Summary.TypeSummaryEntry | tofu/tofu.py:224-233 | each entry of a family summary is the summarised attributes of its resource |
| Summary.SummaryKeysListed | tofu/tofu.py:200-213 | the twelve summary keys in source order, no repeats |
| Summary.SummaryUpToStep | tofu/tofu.py:200-233 | each loop round of `terraform_resources` adds its family's summary under its key |
| Summary.SummaryUpToEnds | tofu/tofu.py:198-243 | the loop starts from the empty result and ends with the whole summary |
| Summary.ResourcesSummary | tofu/tofu.py:196-243 | the whole `terraform_resources` result, one entry per family; stated by `Summary.ResourcesSummaryKeys` and `Summary.ResourcesSummaryEntries` |
| Summary.ResourcesSummaryKeys | tofu/tofu.py:196-243 | the summary has exactly the twelve keys, on every state |
| Summary.ResourcesSummaryEntries | tofu/tofu.py:196-243 | each key holds the summary of its resource type |
| Summary.SummaryValue | tofu/tofu.py:256 | the summary as a JSON object has the summary's keys |
| Hosts.Scalars | tofu/tofu.py:266-269 | exactly the attributes whose key has no `.`, copied as strings |
| Hosts.Metadata | tofu/tofu.py:293-297 | the metadata object: the `(all_)?metadata.` keys under their stripped names; stated by `Hosts.MetadataField` and `Hosts.MetadataSkipsCounts` |
| Hosts.MetadataField | tofu/tofu.py:293-297 | `metadata.<field>` or `all_metadata.<field>` gives its value to `<field>` of the metadata object, the last writer winning |
| Hosts.MetadataSkipsCounts | tofu/tofu.py:296 | the count keys `metadata.%` and `all_metadata.%` are left out of the metadata object |
| Hosts.NetworkEntry | tofu/tofu.py:302-304 | network entry `i`: the keys in which `network.<i>` occurs, with `network.<i>.` removed; stated by `Hosts.NetworkEntryField` and `Hosts.NetworkEntryCrossTalk` |
| Hosts.NetworkEntryField | tofu/tofu.py:299-305 | `network.<i>.<field>` gives its value to `<field>` of network entry `i` |
| Hosts.NetworkEntryCrossTalk | tofu/tofu.py:302-304 | network entry 1 also receives `network.10.name`, under `.name` |
| Hosts.NetworkList | tofu/tofu.py:301-305 | `network.#` entries, entry `i` built from the `network.<i>` keys |
| Hosts.SchedulerHint | tofu/tofu.py:313-315 | the hint object: the `scheduler_hints.<n>` keys with the indexed prefix removed; stated by `Hosts.SchedulerHintField` |
| Hosts.SchedulerHintField | tofu/tofu.py:310-316 | `scheduler_hints.<n>.<field>` gives its value to `<field>` of the hint object |
| Hosts.SecurityGroups | tofu/tofu.py:318-321 | the values of the security-group keys, in attribute order |
| Hosts.SecurityGroupsSelected | tofu/tofu.py:318-321 | every `security_groups.<n>` is selected, the count key is not, and order is kept |
| Hosts.FloatingIpsValue | tofu/tofu.py:273-274 | `floating_ips` has one entry per association, each the found address record or null |
| Hosts.VolumesValue | tofu/tofu.py:286-287 | `volumes` has one entry per attachment, each the found volume or null |
| Hosts.FirstAddress | tofu/tofu.py:279-284 | the address taken from the first floating IP is the first association's `floating_ip` |
| Hosts.PublicIpv4 | tofu/tofu.py:281-284 | a public address is set exactly when the instance has a floating-IP association, and it is the first one's address |
| Hosts.NetworkValue | tofu/tofu.py:299-305 | `network` lists `network.#` objects (none without the count key), object `i` being network entry `i` |
| Hosts.SchedulerHintsValue | tofu/tofu.py:310-316 | `scheduler_hints` lists `scheduler_hints.#` copies of the hint object |
| Hosts.SecurityGroupsValue | tofu/tofu.py:318-321 | `security_groups` lists the security-group values in attribute order |
| Hosts.Derived | tofu/tofu.py:273-321 | the derived fields hold exactly the assigned values, and `ansible_host` and `public_ipv4` are present exactly when they are set |
| Hosts.DerivedOf | tofu/tofu.py:273-321 | for an instance, `ansible_host` and `public_ipv4` are present exactly when the address policy gives one |
| Hosts.HostRecord | tofu/tofu.py:266-321 | the host record of one instance: the dot-free attributes with the derived fields over them; stated by `Hosts.HostRecordKeys`, `Hosts.RecordLookup`, `Hosts.HostRecordAttribute`, `Hosts.HostRecordPrimary`, `Hosts.HostRecordAnsibleHost`, `Hosts.HostRecordPublicIpv4` and `Hosts.HostRecordLists` |
| Hosts.HostRecordKeys | tofu/tofu.py:266-321 | a host record's keys are the dot-free attributes, the fixed record keys, `ansible_host` when the access IP is used or a floating IP exists, and `public_ipv4` when a floating IP exists |
| Hosts.HostRecordAttribute | tofu/tofu.py:266-269 | a dot-free attribute that no later step overwrites keeps its value |
| Hosts.HostRecordPrimary | tofu/tofu.py:289-291 | `id`, `meta` and `tainted` come from the primary record, over any attribute of that name |
| Hosts.RecordLookup | tofu/tofu.py:266-321 | a record key is a derived field or a dot-free attribute; derived fields win |
| Hosts.HostRecordAnsibleHost | tofu/tofu.py:276-279 | `ansible_host` is `access_ip_v4` when asked for, else the first floating IP's address, else the attribute of that name if there is one |
| Hosts.HostRecordPublicIpv4 | tofu/tofu.py:281-284 | `public_ipv4` is the first floating IP's address when there is one, else the attribute of that name if there is one |
| Hosts.HostRecordLists | tofu/tofu.py:273-321 | the list fields of the record are the network, hint, metadata, security-group, floating-IP and volume lists |
| Groups.AddHost | tofu/tofu.py:361-370 | joining a group appends the host name and the instance id, sets `scale` to the host count, creates the group if new, and leaves other groups alone |
| Groups.AddHostBalanced | tofu/tofu.py:361-370 | after a join, `scale`, the host count and the node count agree |
| Groups.AddHosts | tofu/tofu.py:361-386 | one host joining a sequence of groups in turn; stated by `Groups.AddHostsKeys`, `Groups.AddHostsJoined` and `Groups.AddHostsConcat` |
| Groups.AddHostsKeys | tofu/tofu.py:372-386 | after several joins, the groups are the old ones plus the joined keys |
| Groups.AddHostsJoined | tofu/tofu.py:372-386 | a group joined `n` times by one host gains the name and the id `n` times, in order |
| Groups.JoinedShape | tofu/tofu.py:372-386 | a group joined `n > 0` times has `scale` equal to its host count and keeps its settings |
| Groups.JoinedHolds | tofu/tofu.py:377-385 | a group joined at least once holds the host name and the instance id, and `scale` counts its hosts |
| Groups.AddHostsConcat | tofu/tofu.py:361-386 | the `group_by` join followed by the fan-out is one sequence of joins |
| Groups.SplitTwoGroups | tofu/tofu.py:373 | an illustration only: `"a,b"` splits into the groups `a` and `b` |
| Groups.Put | tofu/tofu.py:343 | writing a key of a built dictionary sets its value and appends the key only if it is new |
| Groups.Delete | tofu/tofu.py:345-346 | deleting a key removes it and nothing else |
| Groups.WrittenTwiceKeys | tofu/tofu.py:341-343 | after the double write, both each key and its rewritten form are present |
| Groups.WrittenTwiceSource | tofu/tofu.py:341-343 | every written key holds the value of a source key, under that key or its rewritten form |
| Groups.WrittenTwiceLast | tofu/tofu.py:341-343 | a key written last under its own name holds its own value |
| Groups.SpecVarsWritten | tofu/tofu.py:341-343 | every server-group attribute is stored under its own key and under its `value_specs.`-stripped key |
| Groups.SpecVarsSource | tofu/tofu.py:341-343 | every stored key holds an attribute's value, under that key or its stripped form |
| Groups.SpecVarsLast | tofu/tofu.py:341-343 | a key that no later attribute overwrites holds its own value |
| Groups.ServerGroupVars | tofu/tofu.py:340-346 | the server-group vars never contain `%` |
| Groups.ServerGroupVarsKeys | tofu/tofu.py:340-346 | the vars hold every attribute key and stripped key except `%`, each with a value from the attributes |
| Groups.ValueSpecsBothKept | tofu/tofu.py:341-343 | `value_specs.<k>` is kept under both its full and its stripped key |
| Groups.InstanceName | tofu/tofu.py:354-357 | a member id names the first instance with that id |
| Groups.MemberValues | tofu/tofu.py:348-351 | the nodes are the values of the member keys, in vars order |
| Groups.MemberNames | tofu/tofu.py:354-357 | the hosts are the instance names of the nodes, in the same order |
| Groups.ServerGroup | tofu/tofu.py:336-357 | the group rebuilt from one server group; stated by `Groups.ServerGroupShape` |
| Groups.ServerGroupShape | tofu/tofu.py:336-357 | a server group carries the vars, the member ids, `scale` read from `members.#`, and one host name per node |
| Groups.MemberKeysSelected | tofu/tofu.py:349-350 | every `members.<n>` is a member key, `members.#` is not, and vars order is kept |
| Groups.ServerGroupNames | tofu/tofu.py:335 | one group name per server group, its `name` attribute |
| Groups.Rebuilt | tofu/tofu.py:334-357 | one rebuilt group per server group, in order |
| Groups.WithServerGroups | tofu/tofu.py:333-357 | every server group written in turn under its name; stated by `Groups.WithServerGroupsStep`, `Groups.WithServerGroupsSnoc`, `Groups.WithServerGroupsEffect` and `Groups.WithServerGroupsOver` |
| Groups.WithServerGroupsStep | tofu/tofu.py:334-336 | each server group in turn replaces the group of its name |
| Groups.WithServerGroupsSnoc | tofu/tofu.py:334-336 | the last server group's write is the final one |
| Groups.WithServerGroupsEffect | tofu/tofu.py:333-357 | after the rebuild, the groups are the old ones plus the server-group names; other groups are untouched; each name holds the last server group of that name |
| Groups.WithServerGroupsOver | tofu/tofu.py:333-357 | rebuilding over groups that are all server groups leaves exactly the server groups |
| Assembly.GroupsAfter | tofu/tofu.py:326-386 | the groups after the loop has run over a prefix of the instances; stated by `Assembly.GroupsStep`, `Assembly.GroupsLast`, `Assembly.DynamicGroups`, `Assembly.DefaultGroupByName`, `Assembly.StepJoins`, `Assembly.FanOut` and `Assembly.ServerGroupRun` |
| Assembly.Run | tofu/tofu.py:246-386 | the whole document after the loop has run over a prefix of the instances; stated by `Assembly.RunStart`, `Assembly.RunEmpty`, `Assembly.RunStep` and the `Hostvars` lemmas |
| Assembly.Assemble | tofu/tofu.py:130-136 | the document `ansible_inventory` returns: the run over all instances of the table; `Assembly.RunAll` ties it to `Run` |
| Assembly.Names | tofu/tofu.py:264 | the host keys are the instances' names, in loop order |
| Assembly.Records | tofu/tofu.py:266-321 | one host record per instance, in loop order |
| Assembly.RunEmpty | tofu/tofu.py:246-256 | before any instance, `all` has no hosts, there are no groups, and the hostvars hold only `tf_resources` |
| Assembly.RunStart | tofu/tofu.py:246-256 | the loop starts from the resource summary and empty hosts and groups |
| Assembly.RunAll | tofu/tofu.py:259 | the loop over all instances is the run over the whole instance list |
| Assembly.RunStep | tofu/tofu.py:259-386 | one instance adds its record under its name, appends its name to `all`, and joins its groups |
| Assembly.HostvarsKeys | tofu/tofu.py:254-266 | the hostvars are `tf_resources` and the instance names |
| Assembly.HostvarsLast | tofu/tofu.py:266 | a name holds the record of the last instance with that name |
| Assembly.HostvarsSummary | tofu/tofu.py:254-256 | unless an instance is named `tf_resources`, the hostvars carry the resource summary under that name |
| Assembly.NamesStep | tofu/tofu.py:271 | each round appends one name to `all` |
| Assembly.HostvarsStep | tofu/tofu.py:266 | each round writes one host record |
| Assembly.GroupsStep | tofu/tofu.py:326-386 | each round rebuilds the server groups if they are on, then joins the `group_by` group and the fan-out groups |
| Assembly.GroupsLast | tofu/tofu.py:326-386 | the groups after the last instance are the earlier groups joined by that instance's keys |
| Assembly.DynamicGroups | tofu/tofu.py:358-386 | without server groups, a group exists exactly when some instance joins it, with the joining hosts and nodes in loop order and `scale` its size |
| Assembly.DefaultGroupByName | tofu/tofu.py:358-359 | with no `group_by`, no `groups` and no server groups, each host joins the group of its own name, and those are the only groups |
| Assembly.DefaultJoins | tofu/tofu.py:358-370 | when every host joins only its own name, the joined keys are exactly the names |
| Assembly.StepJoins | tofu/tofu.py:361-386 | a key joined in the last round holds the earlier group extended by that host as often as it was joined |
| Assembly.FanOut | tofu/tofu.py:372-386 | for every `groups` value and every comma-separated piece of it, the group of that name exists afterwards, holds the host and its instance id, and has `scale` equal to its host count |
| Assembly.ServerGroupKeysOnly | tofu/tofu.py:333-357 | with server groups on and no `groups`, every group is a server group |
| Assembly.ServerGroupLastStep | tofu/tofu.py:333-357 | with server groups on, the final groups are the last rebuild over the earlier ones |
| Assembly.ServerGroupRun | tofu/tofu.py:333-357 | with server groups on and no `groups`, the groups are exactly the server groups, each the last one of its name |
| Engine.TerraformInventory.constructor | tofu/tofu.py:110-112 | the engine holds the resource table, its instances in table order, and no inventory yet |
| Engine.TerraformInventory.GetVolume | tofu/tofu.py:170-181 | the loop over the volume's attributes computes `Lookup.Volume` |
| Engine.TerraformInventory.TerraformResources | tofu/tofu.py:196-243 | the loop over the twelve families computes `Summary.ResourcesSummary`, including the catch-all |
| Engine.TerraformInventory.BuildHostRecord | tofu/tofu.py:262-321 | the step-by-step record assignments compute `Hosts.HostRecord` |
| Engine.TerraformInventory.RebuildServerGroup | tofu/tofu.py:334-357 | one server group's loop computes `Groups.ServerGroup` |
| Engine.TerraformInventory.AddServerGroups | tofu/tofu.py:333-357 | the server-group loop computes `Groups.WithServerGroups` |
| Engine.TerraformInventory.TerraformInventory | tofu/tofu.py:246-388 | the instance loop computes `Assembly.Run` over all instances |
| Engine.TerraformInventory.StartInventory | tofu/tofu.py:247-256 | the initial result is the run before any instance |
| Engine.TerraformInventory.InstanceStep | tofu/tofu.py:259-386 | one iteration turns the run over the first `i` instances into the run over the first `i + 1`; `group_by` becomes its effective value |
| Engine.TerraformInventory.JoinStep | tofu/tofu.py:326-386 | the grouping part of one iteration, including the `group_by := 'name'` default |
| Engine.TerraformInventory.AnsibleInventory | tofu/tofu.py:130-136 | the returned inventory is `Assembly.Assemble` of the state, and it is stored in `inventory` |
| Engine.BuildNetworks | tofu/tofu.py:299-305 | the network loop computes `Hosts.NetworkValue` |
| Engine.BuildSchedulerHints | tofu/tofu.py:310-316 | the hint loop computes `Hosts.SchedulerHintsValue` |
| Engine.JoinGroups | tofu/tofu.py:372-386 | the fan-out loop computes `Groups.AddHosts` |
| Engine.WriteSpecVars | tofu/tofu.py:341-343 | the double-write loop computes `Groups.SpecVars` |
| Engine.BuildServerGroupVars | tofu/tofu.py:340-346 | the vars loop followed by the `%` deletion computes `Groups.ServerGroupVars` |
| Engine.HostRecordAssigned | tofu/tofu.py:266-321 | the source's chain of record assignments gives `Hosts.HostRecord` |
| Engine.AssignmentsDerived | tofu/tofu.py:266-321 | assignments made after copying the scalars override them, giving scalars plus the derived fields |

## Left out

- Reading the state is not modelled: the `terraform state pull` subprocess, or a file or standard input (tofu/tofu.py:74-110). The engine starts from a parsed resource table.
- `print_hosts_file`, the command line, `warn`, `die`, `print_json`, `example_inventory`, `empty_inventory` and setup.py are not part of this model. They are I/O or fixed sample documents.
- `Dotable` is not modelled. Attribute access on it is plain map lookup, and a missing key is a precondition.
- `Dotable.parse(groups_node)` is taken as a fresh copy. A server group therefore shares no list with the `groups_node` of its iteration, so there is no aliasing to model.
- The warning that `terraform_resources` writes in its `except` branch is not modelled. The empty entry it writes is.
- Summary.TypeSummaryKeys: the catch-all `except Exception` is modelled for the two failures the code can raise on a valid table: an empty family, and a resource with neither `name` nor `id`.
- Dictionary order: Python 2 iteration order is an explicit key sequence for each dictionary read from the state. Server-group vars use insertion order. Hash order is not modelled.
- Groups.ServerGroup: the group's `settings` are the server-group vars. The member ids and `scale` are separate fields. Attributes named `nodes` or `scale` are kept in `settings`, where the source would overwrite them with the node list and the count.
- Util.DecimalValue: `int()` of a count is modelled for plain decimal digit strings only, which is what Terraform writes. `int()` also accepts a sign and surrounding whitespace. Those are not modelled: `CountsDefined` and `ServerGroupDefined` require digit strings. So a count such as `-1` is left out, which would give an empty `network` or `scheduler_hints` list (tofu/tofu.py:301, 312) and a server-group `scale` of -1 (tofu/tofu.py:352). Text `int()` rejects raises `ValueError` in the source.
- Lookup.VolumeAttrs and Groups.ServerGroupName: `str()` is the identity. In the Python 2 source, the state is read as `unicode`. So `str()` raises `UnicodeEncodeError` on a volume attribute key with a non-ASCII character (tofu/tofu.py:180) and on a non-ASCII server-group name (tofu/tofu.py:337). This error path is not modelled; the model carries on where the source stops.
- The `group_by` and `groups` arguments use `""` for both None and the empty string, which the source treats alike.
- Group names `_meta`, `all` and `tf_resources` are excluded by `GroupsDefined`. For `group_by` and `groups` keys the source raises `AttributeError` (`all`, `tf_resources`) or `KeyError` (`_meta`) at tofu/tofu.py:364 and 380. For a server-group name it overwrites that entry of the document at tofu/tofu.py:338. The overwrite is not modelled.
- The `all` group is modelled by its host list only. Its `vars` are always empty (tofu/tofu.py:254).
