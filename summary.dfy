/** `terraform_resources`: a summary of twelve resource families, each keyed
    by resource name (or id) and holding the resource's attributes with
    `attachment.<n>.` and `rule.<n>.` fragments removed from the keys
    (tofu/tofu.py:196-243). */
module Summary {
  import opened Util
  import opened Patterns
  import opened PatternFacts
  import opened State
  import opened Lookup

  /** Output key and resource type of each summary entry, in the order they are filled in. */
  const SUMMARY_TYPES: seq<(string, string)> := [
    ("floating_ip_associations", "openstack_compute_floatingip_associate_v2"),
    ("floating_ips", "openstack_networking_floatingip_v2"),
    ("keypairs", "openstack_compute_keypair_v2"),
    ("instances", "openstack_compute_instance_v2"),
    ("networks", "openstack_networking_network_v2"),
    ("router_interfaces", "openstack_networking_router_interface_v2"),
    ("routers", "openstack_networking_router_v2"),
    ("security_groups", "openstack_compute_secgroup_v2"),
    ("server_groups", "openstack_compute_servergroup_v2"),
    ("subnets", "openstack_networking_subnet_v2"),
    ("volume_attachments", "openstack_compute_volume_attach_v2"),
    ("volumes", "openstack_blockstorage_volume_v2")
  ]

  /** Family -> resource name (or id) -> rewritten attributes. */
  type Summary = map<string, map<string, map<string, string>>>

  /** A resource's attributes with every `attachment.<n>.` or `rule.<n>.` fragment
      (any character after the family name) removed from the keys. */
  function ResourceAttrs(a: Attrs): (r: map<string, string>)
    requires AttrsWF(a)
    ensures forall k :: k in r <==> exists y :: y in a.keys && StripAttachmentOrRule(y) == k
  {
    Rekeyed(a.keys, a.vals, KeepAll, StripAttachmentOrRule)
  }

  /** A key `rule.<n>.<field>` or `attachment.<n>.<field>` gives its value to
      `<field>`, and a key mentioning neither keeps key and value, unless a later
      key is rewritten to the same name. */
  lemma ResourceAttrsFields(a: Attrs, i: nat)
    requires AttrsWF(a) && i < |a.keys|
    requires forall j :: i < j < |a.keys| ==> StripAttachmentOrRule(a.keys[j]) != StripAttachmentOrRule(a.keys[i])
    ensures StripAttachmentOrRule(a.keys[i]) in ResourceAttrs(a)
    ensures ResourceAttrs(a)[StripAttachmentOrRule(a.keys[i])] == a.vals[a.keys[i]]
    ensures forall n: nat, field :: a.keys[i] == "rule." + NatToString(n) + "." + field ==>
      StripAttachmentOrRule(a.keys[i]) == StripAttachmentOrRule(field)
    ensures forall n: nat, field :: a.keys[i] == "attachment." + NatToString(n) + "." + field ==>
      StripAttachmentOrRule(a.keys[i]) == StripAttachmentOrRule(field)
    ensures !Contains(a.keys[i], "attachment") && !Contains(a.keys[i], "rule") ==>
      StripAttachmentOrRule(a.keys[i]) == a.keys[i]
  {
    RekeyedLast(a.keys, a.vals, KeepAll, StripAttachmentOrRule, i);
    forall n: nat, field | a.keys[i] == "rule." + NatToString(n) + "." + field
      ensures StripAttachmentOrRule(a.keys[i]) == StripAttachmentOrRule(field)
    {
      StripRuleFragment(n, field);
    }
    forall n: nat, field | a.keys[i] == "attachment." + NatToString(n) + "." + field
      ensures StripAttachmentOrRule(a.keys[i]) == StripAttachmentOrRule(field)
    {
      StripAttachmentOrRuleFragment(n, field);
    }
    if !Contains(a.keys[i], "attachment") && !Contains(a.keys[i], "rule") {
      StripAttachmentOrRuleKeeps(a.keys[i]);
    }
  }

  /** The resource has a `name` or an `id`, so the summary can key it. */
  predicate Keyable(tbl: Table, k: string) {
    HasAttr(tbl, k, "name") || HasAttr(tbl, k, "id")
  }

  /** The `name` attribute if there is one, otherwise the `id` attribute. */
  function NameOrId(tbl: Table, k: string): string
    requires Keyable(tbl, k)
  {
    if HasAttr(tbl, k, "name") then Attr(tbl, k, "name") else Attr(tbl, k, "id")
  }

  /** The summary keys of `items`, in order. */
  function EntryKeys(tbl: Table, items: seq<string>): (r: seq<string>)
    requires forall k :: k in items ==> Keyable(tbl, k)
    ensures |r| == |items| && forall i :: 0 <= i < |items| ==> r[i] == NameOrId(tbl, items[i])
  {
    seq(|items|, i requires 0 <= i < |items| => NameOrId(tbl, items[i]))
  }

  /** The rewritten attributes of `items`, in order. */
  function EntryValues(tbl: Table, items: seq<string>): (r: seq<map<string, string>>)
    requires WellFormed(tbl) && forall k :: k in items ==> k in tbl.res
    ensures |r| == |items| && forall i :: 0 <= i < |items| ==> r[i] == ResourceAttrs(AttrsOf(tbl, items[i]))
  {
    seq(|items|, i requires 0 <= i < |items| => ResourceAttrs(AttrsOf(tbl, items[i])))
  }

  /** `{NameOrId(item): ResourceAttrs(item) for item in items}`: the items are
      visited in order, so a later item overwrites an earlier one of the same name. */
  function Entries(tbl: Table, items: seq<string>): map<string, map<string, string>>
    requires WellFormed(tbl)
    requires forall k :: k in items ==> Keyable(tbl, k)
  {
    Assign(map[], EntryKeys(tbl, items), EntryValues(tbl, items))
  }

  /** The entry is keyed by exactly the names (or ids) of the items. */
  lemma EntriesKeys(tbl: Table, items: seq<string>)
    requires WellFormed(tbl)
    requires forall k :: k in items ==> Keyable(tbl, k)
    ensures Entries(tbl, items).Keys == set k | k in items :: NameOrId(tbl, k)
  {
    var ks := EntryKeys(tbl, items);
    forall y
      ensures y in Entries(tbl, items) <==> y in set k | k in items :: NameOrId(tbl, k)
    {
      AssignKeys(map[], ks, EntryValues(tbl, items), y);
      if y in ks {
        var j :| 0 <= j < |ks| && ks[j] == y;
        assert items[j] in items;
      }
      if y in set k | k in items :: NameOrId(tbl, k) {
        var x :| x in items && NameOrId(tbl, x) == y;
        var j :| 0 <= j < |items| && items[j] == x;
        assert ks[j] == y;
      }
    }
  }

  /** Two resources with the same name collide, and the later one wins. */
  lemma EntriesLast(tbl: Table, items: seq<string>, i: nat)
    requires WellFormed(tbl)
    requires forall k :: k in items ==> Keyable(tbl, k)
    requires i < |items|
    requires forall j :: i < j < |items| ==> NameOrId(tbl, items[j]) != NameOrId(tbl, items[i])
    ensures NameOrId(tbl, items[i]) in Entries(tbl, items)
    ensures Entries(tbl, items)[NameOrId(tbl, items[i])] == ResourceAttrs(AttrsOf(tbl, items[i]))
  {
    AssignLast(map[], EntryKeys(tbl, items), EntryValues(tbl, items), i);
  }

  /** One summary entry: `{}` when no resource has the type or when one of them
      has neither `name` nor `id` (the exception the source catches). */
  function TypeSummary(tbl: Table, t: string): map<string, map<string, string>>
    requires WellFormed(tbl)
  {
    var rs := GetResources(tbl, t);
    if rs == [] || exists k :: k in rs && !Keyable(tbl, k) then map[] else Entries(tbl, rs)
  }

  /** The entry of a family is empty when the family has no resources or one of
      them cannot be keyed, and otherwise keyed by the names (or ids) of its resources. */
  lemma TypeSummaryKeys(tbl: Table, t: string)
    requires WellFormed(tbl)
    ensures GetResources(tbl, t) == [] ==> TypeSummary(tbl, t) == map[]
    ensures (exists k :: k in GetResources(tbl, t) && !Keyable(tbl, k)) ==> TypeSummary(tbl, t) == map[]
    ensures (forall k :: k in GetResources(tbl, t) ==> Keyable(tbl, k)) ==>
      TypeSummary(tbl, t).Keys == set k | k in GetResources(tbl, t) :: NameOrId(tbl, k)
  {
    if forall k :: k in GetResources(tbl, t) ==> Keyable(tbl, k) {
      EntriesKeys(tbl, GetResources(tbl, t));
    }
  }

  /** A resource of the family is summarised under its name (or id) unless a
      later resource of the family shares it. */
  lemma TypeSummaryEntry(tbl: Table, t: string, i: nat)
    requires WellFormed(tbl)
    requires forall k :: k in GetResources(tbl, t) ==> Keyable(tbl, k)
    requires i < |GetResources(tbl, t)|
    requires forall j :: i < j < |GetResources(tbl, t)| ==>
      NameOrId(tbl, GetResources(tbl, t)[j]) != NameOrId(tbl, GetResources(tbl, t)[i])
    ensures NameOrId(tbl, GetResources(tbl, t)[i]) in TypeSummary(tbl, t)
    ensures TypeSummary(tbl, t)[NameOrId(tbl, GetResources(tbl, t)[i])] ==
      ResourceAttrs(AttrsOf(tbl, GetResources(tbl, t)[i]))
  {
    EntriesLast(tbl, GetResources(tbl, t), i);
  }

  /** The output keys of `SUMMARY_TYPES`, in order. */
  function SummaryKeys(): (r: seq<string>)
    ensures |r| == |SUMMARY_TYPES| && forall i :: 0 <= i < |r| ==> r[i] == SUMMARY_TYPES[i].0
  {
    seq(|SUMMARY_TYPES|, i requires 0 <= i < |SUMMARY_TYPES| => SUMMARY_TYPES[i].0)
  }

  /** The summary of each family of `SUMMARY_TYPES`, in order. */
  function Families(tbl: Table): (r: seq<map<string, map<string, string>>>)
    requires WellFormed(tbl)
    ensures |r| == |SUMMARY_TYPES| && forall i :: 0 <= i < |r| ==> r[i] == TypeSummary(tbl, SUMMARY_TYPES[i].1)
  {
    seq(|SUMMARY_TYPES|, i requires 0 <= i < |SUMMARY_TYPES| => TypeSummary(tbl, SUMMARY_TYPES[i].1))
  }

  /** The loop over the twelve (key, type) pairs, `result[key] = ...` each time. */
  function ResourcesSummary(tbl: Table): Summary
    requires WellFormed(tbl)
  {
    Assign(map[], SummaryKeys(), Families(tbl))
  }

  /** The summary after the first `i` pairs of the loop. */
  function SummaryUpTo(tbl: Table, i: nat): Summary
    requires WellFormed(tbl) && i <= |SUMMARY_TYPES|
  {
    Assign(map[], SummaryKeys()[..i], Families(tbl)[..i])
  }

  /** One more pair of the loop sets one more family. */
  lemma SummaryUpToStep(tbl: Table, i: nat)
    requires WellFormed(tbl) && i < |SUMMARY_TYPES|
    ensures SummaryUpTo(tbl, i + 1) == SummaryUpTo(tbl, i)[SUMMARY_TYPES[i].0 := TypeSummary(tbl, SUMMARY_TYPES[i].1)]
  {
    var ks, fs := SummaryKeys(), Families(tbl);
    PrefixStep(ks, i);
    PrefixStep(fs, i);
    AssignSnoc(map[], ks[..i + 1], fs[..i + 1]);
  }

  /** Before the loop nothing is set, after it the whole summary is. */
  lemma SummaryUpToEnds(tbl: Table)
    requires WellFormed(tbl)
    ensures SummaryUpTo(tbl, 0) == map[]
    ensures SummaryUpTo(tbl, |SUMMARY_TYPES|) == ResourcesSummary(tbl)
  {
    assert SummaryKeys()[..|SUMMARY_TYPES|] == SummaryKeys();
    assert Families(tbl)[..|SUMMARY_TYPES|] == Families(tbl);
  }

  lemma SummaryKeysListed()
    ensures Distinct(SummaryKeys())
    ensures SummaryKeys() == [
      "floating_ip_associations", "floating_ips", "keypairs", "instances", "networks",
      "router_interfaces", "routers", "security_groups", "server_groups", "subnets",
      "volume_attachments", "volumes"]
  {
  }

  lemma SummaryKeyDisplay()
    ensures (set k | k in SummaryKeys()) == {
      "floating_ip_associations", "floating_ips", "keypairs", "instances", "networks",
      "router_interfaces", "routers", "security_groups", "server_groups", "subnets",
      "volume_attachments", "volumes" }
    ensures |set k | k in SummaryKeys()| == 12
  {
    SummaryKeysListed();
    DistinctCard(SummaryKeys());
  }

  /** The summary always has exactly the twelve family keys. */
  lemma ResourcesSummaryKeys(tbl: Table)
    requires WellFormed(tbl)
    ensures ResourcesSummary(tbl).Keys == {
      "floating_ip_associations", "floating_ips", "keypairs", "instances", "networks",
      "router_interfaces", "routers", "security_groups", "server_groups", "subnets",
      "volume_attachments", "volumes" }
    ensures |ResourcesSummary(tbl).Keys| == 12
  {
    forall k
      ensures k in ResourcesSummary(tbl) <==> k in SummaryKeys()
    {
      AssignKeys(map[], SummaryKeys(), Families(tbl), k);
    }
    assert ResourcesSummary(tbl).Keys == set k | k in SummaryKeys();
    SummaryKeyDisplay();
  }

  /** The entry under each family key is the summary of that family's resource type. */
  lemma ResourcesSummaryEntries(tbl: Table)
    requires WellFormed(tbl)
    ensures forall i :: 0 <= i < |SUMMARY_TYPES| ==>
      SUMMARY_TYPES[i].0 in ResourcesSummary(tbl) &&
      ResourcesSummary(tbl)[SUMMARY_TYPES[i].0] == TypeSummary(tbl, SUMMARY_TYPES[i].1)
  {
    SummaryKeysListed();
    var ks, fs := SummaryKeys(), Families(tbl);
    forall i | 0 <= i < |SUMMARY_TYPES|
      ensures SUMMARY_TYPES[i].0 in ResourcesSummary(tbl)
      ensures ResourcesSummary(tbl)[SUMMARY_TYPES[i].0] == TypeSummary(tbl, SUMMARY_TYPES[i].1)
    {
      assert forall j :: i < j < |ks| ==> ks[j] != ks[i];
      AssignLast(map[], ks, fs, i);
    }
  }

  lemma {:induction false} DistinctCard<T>(s: seq<T>)
    requires Distinct(s)
    ensures |set x | x in s| == |s|
    decreases |s|
  {
    if s != [] {
      var n := |s| - 1;
      assert Distinct(s[..n]);
      DistinctCard(s[..n]);
      assert (set x | x in s) == (set x | x in s[..n]) + {s[n]};
      assert s[n] !in (set x | x in s[..n]);
    }
  }

  /** The summary as the JSON object stored under `tf_resources.vars`. */
  function SummaryValue(s: Summary): (v: Value)
    ensures v.Obj? && v.fields.Keys == s.Keys
  {
    Obj(map f | f in s :: Obj(map n | n in s[f] :: Obj(StrMap(s[f][n]))))
  }
}
