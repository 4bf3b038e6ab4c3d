/** The host record `terraform_inventory` stores under `_meta.hostvars[<name>]`
    for each instance (tofu/tofu.py:259-321): the dot-free attributes, the
    floating IPs and the address policy, the volumes, `id`/`meta`/`tainted`
    from `primary`, and the `metadata`, `network`, `scheduler_hints` and
    `security_groups` lists rebuilt from the flat keys. */
module Hosts {
  import opened Util
  import opened Patterns
  import opened PatternFacts
  import opened State
  import opened Lookup

  /** The attributes whose key holds no `.` (the source escapes the dot, so this
      is a literal character test). */
  function Scalars(a: Attrs): (r: map<string, Value>)
    ensures forall k :: k in r <==> k in a.vals && '.' !in k
    ensures forall k :: k in r ==> r[k] == Str(a.vals[k])
  {
    map k | k in a.vals && '.' !in k :: Str(a.vals[k])
  }

  /** The metadata map: the keys in which `metadata`, any character and then a
      character other than `%` occur, with every `metadata<any char>` fragment
      (and an `all_` before it) removed from the name; later keys win when two
      are renamed alike. */
  function Metadata(a: Attrs): map<string, string>
    requires AttrsWF(a)
  {
    Rekeyed(a.keys, a.vals, IsMetadataKey, StripMetadata)
  }

  /** A metadata key `metadata.<field>` or `all_metadata.<field>` (field not
      starting with `%`) gives its value to `<field>`, unless a later selected key
      is rewritten to the same name. */
  lemma MetadataField(a: Attrs, j: nat, field: string)
    requires AttrsWF(a) && j < |a.keys| && |field| > 0 && field[0] != '%' && !Contains(field, "metadata")
    requires a.keys[j] == "metadata." + field || a.keys[j] == "all_metadata." + field
    requires forall l :: j < l < |a.keys| && IsMetadataKey(a.keys[l]) ==> StripMetadata(a.keys[l]) != field
    ensures field in Metadata(a) && Metadata(a)[field] == a.vals[a.keys[j]]
  {
    MetadataFieldKey(field);
    StripMetadataKeeps(field);
    RekeyedLast(a.keys, a.vals, IsMetadataKey, StripMetadata, j);
  }

  /** The count keys of the metadata maps never reach the metadata map. */
  lemma MetadataSkipsCounts(a: Attrs)
    requires AttrsWF(a)
    ensures forall k :: k in a.keys && (k == "metadata.%" || k == "all_" + "metadata.%") ==> !IsMetadataKey(k)
  {
    MetadataCountKey();
    AllMetadataCountKey("all_" + "metadata.%");
  }

  function NetworkKeep(i: nat): string -> bool {
    k => IsNetworkKey(k, i)
  }

  function NetworkRename(i: nat): string -> string {
    k => StripNetwork(k, i)
  }

  /** Entry `i` of the network list: the keys in which `network`, any character
      and the decimal `i` occur, with every `network<any char><i><any char>`
      fragment removed from the name. The index is not delimited, so `i` = 1 also
      selects the keys of entry 10. */
  function NetworkEntry(a: Attrs, i: nat): map<string, string>
    requires AttrsWF(a)
  {
    Rekeyed(a.keys, a.vals, NetworkKeep(i), NetworkRename(i))
  }

  /** A key `network.<i>.<field>` gives its value to `<field>` in entry `i`,
      unless a later key selected for entry `i` is rewritten to the same name. */
  lemma NetworkEntryField(a: Attrs, i: nat, j: nat, field: string)
    requires AttrsWF(a) && j < |a.keys| && !Contains(field, "network")
    requires a.keys[j] == "network." + NatToString(i) + "." + field
    requires forall l :: j < l < |a.keys| && IsNetworkKey(a.keys[l], i) ==> StripNetwork(a.keys[l], i) != field
    ensures field in NetworkEntry(a, i) && NetworkEntry(a, i)[field] == a.vals[a.keys[j]]
  {
    NetworkFieldKey(i, field);
    StripNetworkKeeps(field, i);
    RekeyedLast(a.keys, a.vals, NetworkKeep(i), NetworkRename(i), j);
  }

  /** The unescaped `.` of `network.%s`: entry 1 also receives the key
      `network.10.name` of entry 10, under the name `.name`. */
  lemma NetworkEntryCrossTalk(a: Attrs, j: nat)
    requires AttrsWF(a) && j < |a.keys| && a.keys[j] == "network.10.name"
    requires forall l :: j < l < |a.keys| && IsNetworkKey(a.keys[l], 1) ==> StripNetwork(a.keys[l], 1) != ".name"
    ensures ".name" in NetworkEntry(a, 1) && NetworkEntry(a, 1)[".name"] == a.vals["network.10.name"]
  {
    NetworkOneMatchesTen();
    RekeyedLast(a.keys, a.vals, NetworkKeep(1), NetworkRename(1), j);
  }

  /** The network entries 0 to n - 1, in index order. */
  function NetworkList(a: Attrs, n: nat): (r: seq<map<string, string>>)
    requires AttrsWF(a)
    ensures |r| == n
    ensures forall i :: 0 <= i < n ==> r[i] == NetworkEntry(a, i)
  {
    seq(n, i requires 0 <= i < n => NetworkEntry(a, i))
  }

  /** The count stored under `k`, read as a decimal number, or 0 when the key is
      absent (the source then builds no entry at all). */
  function Count(a: Attrs, k: string): nat
    requires k in a.vals ==> IsDecimal(a.vals[k])
  {
    if k in a.vals then DecimalValue(a.vals[k]) else 0
  }

  /** The counts that `int()` must be able to read. */
  predicate CountsDefined(a: Attrs) {
    && ("network.#" in a.vals ==> IsDecimal(a.vals["network.#"]))
    && ("scheduler_hints.#" in a.vals ==> IsDecimal(a.vals["scheduler_hints.#"]))
  }

  function Networks(a: Attrs): seq<map<string, string>>
    requires AttrsWF(a) && CountsDefined(a)
  {
    NetworkList(a, Count(a, "network.#"))
  }

  /** The scheduler-hint map: the keys in which `scheduler_hints`, any character
      and a digit occur, with every `scheduler_hints<any char><digits><any char>`
      fragment removed from the name. */
  function SchedulerHint(a: Attrs): map<string, string>
    requires AttrsWF(a)
  {
    Rekeyed(a.keys, a.vals, IsSchedulerHintKey, StripSchedulerHint)
  }

  /** A key `scheduler_hints.<n>.<field>` gives its value to `<field>`, unless a
      later selected key is rewritten to the same name. */
  lemma SchedulerHintField(a: Attrs, j: nat, n: nat, field: string)
    requires AttrsWF(a) && j < |a.keys| && !Contains(field, "scheduler_hints")
    requires a.keys[j] == "scheduler_hints." + NatToString(n) + "." + field
    requires forall l :: j < l < |a.keys| && IsSchedulerHintKey(a.keys[l]) ==> StripSchedulerHint(a.keys[l]) != field
    ensures field in SchedulerHint(a) && SchedulerHint(a)[field] == a.vals[a.keys[j]]
  {
    SchedulerHintFieldKey(n, field);
    NoLiteralNoSub(field, "scheduler_hints", SchedulerHintLen);
    RekeyedLast(a.keys, a.vals, IsSchedulerHintKey, StripSchedulerHint, j);
  }

  /** The scheduler-hint map, once per count: every hint of every index lands in each copy. */
  function SchedulerHints(a: Attrs): seq<map<string, string>>
    requires AttrsWF(a) && CountsDefined(a)
  {
    Repeat(SchedulerHint(a), Count(a, "scheduler_hints.#"))
  }

  /** The values of the keys in which `security_groups`, any character and a
      digit occur, in key order. */
  function SecurityGroups(a: Attrs): (r: seq<string>)
    requires AttrsWF(a)
    ensures |r| == |Filter(a.keys, IsSecurityGroupKey)|
    ensures forall i :: 0 <= i < |r| ==> r[i] == a.vals[Filter(a.keys, IsSecurityGroupKey)[i]]
  {
    var ks := Filter(a.keys, IsSecurityGroupKey);
    seq(|ks|, i requires 0 <= i < |ks| => a.vals[ks[i]])
  }

  /** The security-group list takes the member keys `security_groups.<n>`, in key
      order, and leaves out the count key `security_groups.#`. */
  lemma SecurityGroupsSelected(a: Attrs)
    requires AttrsWF(a)
    ensures forall n: nat :: "security_groups." + NatToString(n) in a.keys ==>
      "security_groups." + NatToString(n) in Filter(a.keys, IsSecurityGroupKey)
    ensures "security_groups.#" !in Filter(a.keys, IsSecurityGroupKey)
    ensures InOrderOf(Filter(a.keys, IsSecurityGroupKey), a.keys)
  {
    forall n: nat | "security_groups." + NatToString(n) in a.keys
      ensures "security_groups." + NatToString(n) in Filter(a.keys, IsSecurityGroupKey)
    {
      SecurityGroupKeys(n);
    }
    SecurityGroupKeys(0);
    FilterOrdered(a.keys, IsSecurityGroupKey);
  }

  function FloatingIpValue(f: Option<Attrs>): Value {
    if f.Some? then Obj(StrMap(f.value.vals)) else Null
  }

  function VolumeValue(v: Option<map<string, string>>): Value {
    if v.Some? then Obj(StrMap(v.value)) else Null
  }

  /** `floating_ips`: one entry per association of the instance, the floating
      IP's attributes or null. */
  function FloatingIpsValue(tbl: Table, iid: string): (v: Value)
    requires AssociationsDefined(tbl, iid)
    ensures v.List? && |v.items| == |Associations(tbl, iid)|
    ensures forall i :: 0 <= i < |v.items| ==> v.items[i] == FloatingIpValue(GetFloatingIpAssociations(tbl, iid)[i])
  {
    var f := GetFloatingIpAssociations(tbl, iid);
    List(seq(|f|, i requires 0 <= i < |f| => FloatingIpValue(f[i])))
  }

  /** `volumes`: one entry per volume attachment of the instance. */
  function VolumesValue(tbl: Table, iid: string): (v: Value)
    requires AttachmentsDefined(tbl, iid)
    ensures v.List? && |v.items| == |Attachments(tbl, iid)|
    ensures forall i :: 0 <= i < |v.items| ==> v.items[i] == VolumeValue(GetVolumeAttachments(tbl, iid)[i])
  {
    var vs := GetVolumeAttachments(tbl, iid);
    List(seq(|vs|, i requires 0 <= i < |vs| => VolumeValue(vs[i])))
  }

  /** The first association resolves to a floating IP. When it does not, the
      source fails indexing `None` for the address. */
  ghost predicate FirstResolves(tbl: Table, iid: string)
    requires AssociationsDefined(tbl, iid)
  {
    Associations(tbl, iid) != [] ==> GetFloatingIpAssociations(tbl, iid)[0].Some?
  }

  /** The address of the first floating IP of the instance: the `floating_ip` of its
      first association, since that is the address the floating IP was found by. */
  function FirstAddress(tbl: Table, iid: string): (ip: string)
    requires AssociationsDefined(tbl, iid) && Associations(tbl, iid) != [] && FirstResolves(tbl, iid)
    ensures ip == Attr(tbl, Associations(tbl, iid)[0], "floating_ip")
  {
    var f := GetFloatingIpAssociations(tbl, iid)[0];
    ghost var want := Attr(tbl, Associations(tbl, iid)[0], "floating_ip");
    assert f == GetFloatingIp(tbl, want);
    assert "address" in f.value.vals && f.value.vals["address"] == want;
    f.value.vals["address"]
  }

  /** `public_ipv4`: present exactly when the instance has a floating IP, and
      then the first one's address. */
  function PublicIpv4(tbl: Table, iid: string): (r: Option<string>)
    requires AssociationsDefined(tbl, iid) && FirstResolves(tbl, iid)
    ensures r.Some? <==> Associations(tbl, iid) != []
    ensures r.Some? ==> r.value == Attr(tbl, Associations(tbl, iid)[0], "floating_ip")
  {
    if Associations(tbl, iid) != [] then Some(FirstAddress(tbl, iid)) else None
  }

  /** `ansible_host`: `access_ip_v4` when access IPs are used, otherwise the
      first floating IP's address when there is one, otherwise not set. */
  function AnsibleHost(tbl: Table, a: Attrs, iid: string, useAccessIp: bool): Option<string>
    requires AssociationsDefined(tbl, iid) && FirstResolves(tbl, iid)
    requires useAccessIp ==> "access_ip_v4" in a.vals
  {
    if useAccessIp then Some(a.vals["access_ip_v4"]) else PublicIpv4(tbl, iid)
  }

  /** `network`: one entry per `network.#` (none when the key is absent). */
  function NetworkValue(a: Attrs): (v: Value)
    requires AttrsWF(a) && CountsDefined(a)
    ensures v.List? && |v.items| == Count(a, "network.#")
    ensures forall i :: 0 <= i < |v.items| ==> v.items[i] == Obj(StrMap(NetworkEntry(a, i)))
  {
    var nets := Networks(a);
    List(seq(|nets|, i requires 0 <= i < |nets| => Obj(StrMap(nets[i]))))
  }

  /** `scheduler_hints`: the same map once per `scheduler_hints.#`. */
  function SchedulerHintsValue(a: Attrs): (v: Value)
    requires AttrsWF(a) && CountsDefined(a)
    ensures v.List? && |v.items| == Count(a, "scheduler_hints.#")
    ensures forall i :: 0 <= i < |v.items| ==> v.items[i] == Obj(StrMap(SchedulerHint(a)))
  {
    var hints := SchedulerHints(a);
    List(seq(|hints|, i requires 0 <= i < |hints| => Obj(StrMap(hints[i]))))
  }

  /** `security_groups`: the member values in key order. */
  function SecurityGroupsValue(a: Attrs): (v: Value)
    requires AttrsWF(a)
    ensures v.List? && |v.items| == |Filter(a.keys, IsSecurityGroupKey)|
    ensures forall i :: 0 <= i < |v.items| ==> v.items[i] == Str(a.vals[Filter(a.keys, IsSecurityGroupKey)[i]])
  {
    var sgs := SecurityGroups(a);
    List(seq(|sgs|, i requires 0 <= i < |sgs| => Str(sgs[i])))
  }

  /** What building the record of instance `x` reads without failing. */
  ghost predicate RecordDefined(tbl: Table, x: string, useAccessIp: bool) {
    && WellFormed(tbl)
    && x in tbl.res
    && var p := tbl.res[x].primary;
    && AssociationsDefined(tbl, p.id)
    && FirstResolves(tbl, p.id)
    && AttachmentsDefined(tbl, p.id)
    && (useAccessIp ==> "access_ip_v4" in p.attributes.vals)
    && CountsDefined(p.attributes)
  }

  /** The keys every record receives after the dot-free attributes. */
  const RECORD_KEYS: set<string> :=
    {"floating_ips", "volumes", "id", "meta", "tainted", "metadata", "network", "scheduler_hints", "security_groups"}

  /** `d[k] = v` when there is a value to assign. */
  function SetIfPresent(m: map<string, Value>, k: string, o: Option<string>): map<string, Value> {
    if o.Some? then m[k := Str(o.value)] else m
  }

  /** Everything the source assigns into the record after the dot-free
      attributes, given the assigned values, in source order. */
  function Derived(p: Primary, fips: Value, vols: Value, md: Value, net: Value, hints: Value, sgs: Value,
                   host: Option<string>, pub: Option<string>): (d: map<string, Value>)
    ensures d.Keys == RECORD_KEYS + (if host.Some? then {"ansible_host"} else {}) + (if pub.Some? then {"public_ipv4"} else {})
    ensures d["floating_ips"] == fips && d["volumes"] == vols
    ensures d["id"] == Str(p.id) && d["meta"] == p.meta && d["tainted"] == Bool(p.tainted)
    ensures d["metadata"] == md && d["network"] == net && d["scheduler_hints"] == hints && d["security_groups"] == sgs
    ensures "ansible_host" in d <==> host.Some?
    ensures "public_ipv4" in d <==> pub.Some?
    ensures host.Some? ==> d["ansible_host"] == Str(host.value)
    ensures pub.Some? ==> d["public_ipv4"] == Str(pub.value)
  {
    SetIfPresent(SetIfPresent(map["floating_ips" := fips], "ansible_host", host), "public_ipv4", pub)
      ["volumes" := vols]["id" := Str(p.id)]["meta" := p.meta]["tainted" := Bool(p.tainted)]
      ["metadata" := md]["network" := net]["scheduler_hints" := hints]["security_groups" := sgs]
  }

  /** The derived keys of instance `x`'s record. */
  function DerivedOf(tbl: Table, x: string, useAccessIp: bool): (d: map<string, Value>)
    requires RecordDefined(tbl, x, useAccessIp)
    ensures var p := tbl.res[x].primary;
      var host := AnsibleHost(tbl, p.attributes, p.id, useAccessIp);
      var pub := PublicIpv4(tbl, p.id);
      && d.Keys == RECORD_KEYS + (if host.Some? then {"ansible_host"} else {}) + (if pub.Some? then {"public_ipv4"} else {})
      && ("ansible_host" in d <==> host.Some?)
      && ("public_ipv4" in d <==> pub.Some?)
      && (host.Some? ==> d["ansible_host"] == Str(host.value))
      && (pub.Some? ==> d["public_ipv4"] == Str(pub.value))
  {
    var p := tbl.res[x].primary;
    var a := p.attributes;
    Derived(p, FloatingIpsValue(tbl, p.id), VolumesValue(tbl, p.id), List([Obj(StrMap(Metadata(a)))]),
            NetworkValue(a), SchedulerHintsValue(a), SecurityGroupsValue(a),
            AnsibleHost(tbl, a, p.id, useAccessIp), PublicIpv4(tbl, p.id))
  }

  /** The record of instance `x`: its dot-free attributes, overwritten by the derived keys. */
  function HostRecord(tbl: Table, x: string, useAccessIp: bool): map<string, Value>
    requires RecordDefined(tbl, x, useAccessIp)
  {
    Scalars(tbl.res[x].primary.attributes) + DerivedOf(tbl, x, useAccessIp)
  }

  /** The record holds the dot-free attributes, the fixed keys, `ansible_host`
      when access IPs are used or a floating IP exists, and `public_ipv4` when a
      floating IP exists; nothing else. */
  lemma HostRecordKeys(tbl: Table, x: string, useAccessIp: bool)
    requires RecordDefined(tbl, x, useAccessIp)
    ensures var p := tbl.res[x].primary;
      var hasFip := Associations(tbl, p.id) != [];
      HostRecord(tbl, x, useAccessIp).Keys ==
        (set k | k in p.attributes.vals && '.' !in k) + RECORD_KEYS
        + (if useAccessIp || hasFip then {"ansible_host"} else {})
        + (if hasFip then {"public_ipv4"} else {})
  {
    var p := tbl.res[x].primary;
    RecordKeySet(HostRecord(tbl, x, useAccessIp), Scalars(p.attributes), DerivedOf(tbl, x, useAccessIp), p.attributes,
                 AnsibleHost(tbl, p.attributes, p.id, useAccessIp), PublicIpv4(tbl, p.id),
                 useAccessIp, Associations(tbl, p.id) != []);
  }

  /** The key set of a record `s + d` from the key sets of its two parts. */
  lemma RecordKeySet(r: map<string, Value>, s: map<string, Value>, d: map<string, Value>, a: Attrs,
                     host: Option<string>, pub: Option<string>, useAccessIp: bool, hasFip: bool)
    requires r == s + d
    requires forall k :: k in s <==> k in a.vals && '.' !in k
    requires d.Keys == RECORD_KEYS + (if host.Some? then {"ansible_host"} else {}) + (if pub.Some? then {"public_ipv4"} else {})
    requires (host.Some? <==> useAccessIp || hasFip) && (pub.Some? <==> hasFip)
    ensures r.Keys == (set k | k in a.vals && '.' !in k) + RECORD_KEYS
      + (if useAccessIp || hasFip then {"ansible_host"} else {})
      + (if hasFip then {"public_ipv4"} else {})
  {
    assert s.Keys == set k | k in a.vals && '.' !in k;
  }

  /** A key that is neither fixed nor an address is not derived. */
  lemma NotDerived(d: map<string, Value>, host: Option<string>, pub: Option<string>, k: string)
    requires d.Keys == RECORD_KEYS + (if host.Some? then {"ansible_host"} else {}) + (if pub.Some? then {"public_ipv4"} else {})
    ensures k !in RECORD_KEYS && k != "ansible_host" && k != "public_ipv4" ==> k !in d
  {
  }

  /** A dot-free attribute keeps its value unless a later assignment reuses its name. */
  lemma HostRecordAttribute(tbl: Table, x: string, useAccessIp: bool, k: string)
    requires RecordDefined(tbl, x, useAccessIp)
    ensures var a := tbl.res[x].primary.attributes;
      k in a.vals && '.' !in k && k !in RECORD_KEYS && k != "ansible_host" && k != "public_ipv4" ==>
        k in HostRecord(tbl, x, useAccessIp) && HostRecord(tbl, x, useAccessIp)[k] == Str(a.vals[k])
  {
    var p := tbl.res[x].primary;
    var d := DerivedOf(tbl, x, useAccessIp);
    RecordLookup(tbl, x, useAccessIp, k);
    NotDerived(d, AnsibleHost(tbl, p.attributes, p.id, useAccessIp), PublicIpv4(tbl, p.id), k);
  }

  /** `id`, `meta` and `tainted` come from `primary`, overwriting any attribute of that name. */
  lemma HostRecordPrimary(tbl: Table, x: string, useAccessIp: bool)
    requires RecordDefined(tbl, x, useAccessIp)
    ensures var p := tbl.res[x].primary;
      var r := HostRecord(tbl, x, useAccessIp);
      r["id"] == Str(p.id) && r["meta"] == p.meta && r["tainted"] == Bool(p.tainted)
  {
  }

  /** Looking a key up in the record: the derived value if the key is derived,
      otherwise the dot-free attribute. */
  lemma RecordLookup(tbl: Table, x: string, useAccessIp: bool, k: string)
    requires RecordDefined(tbl, x, useAccessIp)
    ensures var a := tbl.res[x].primary.attributes;
      var d := DerivedOf(tbl, x, useAccessIp);
      var r := HostRecord(tbl, x, useAccessIp);
      && (k in r <==> k in d || (k in a.vals && '.' !in k))
      && (k in d ==> r[k] == d[k])
      && (k !in d && k in r ==> r[k] == Str(a.vals[k]))
  {
  }

  lemma AddressKeysDotFree()
    ensures '.' !in "public_ipv4" && '.' !in "ansible_host"
  {
  }

  /** `ansible_host` is `access_ip_v4` when access IPs are used; otherwise it is
      the first floating IP's address (the first association's `floating_ip`)
      when there is one, and the attribute of that name, if any, when there is none. */
  lemma HostRecordAnsibleHost(tbl: Table, x: string, useAccessIp: bool)
    requires RecordDefined(tbl, x, useAccessIp)
    ensures var a := tbl.res[x].primary.attributes;
      var r := HostRecord(tbl, x, useAccessIp);
      var links := Associations(tbl, tbl.res[x].primary.id);
      && (useAccessIp ==> r["ansible_host"] == Str(a.vals["access_ip_v4"]))
      && (!useAccessIp && links != [] ==> r["ansible_host"] == Str(Attr(tbl, links[0], "floating_ip")))
      && (!useAccessIp && links == [] ==>
            ("ansible_host" in r <==> "ansible_host" in a.vals) &&
            ("ansible_host" in r ==> r["ansible_host"] == Str(a.vals["ansible_host"])))
  {
    RecordLookup(tbl, x, useAccessIp, "ansible_host");
    AddressKeysDotFree();
  }

  /** `public_ipv4` is the first floating IP's address when there is one, and
      the attribute of that name, if any, when there is none. */
  lemma HostRecordPublicIpv4(tbl: Table, x: string, useAccessIp: bool)
    requires RecordDefined(tbl, x, useAccessIp)
    ensures var a := tbl.res[x].primary.attributes;
      var r := HostRecord(tbl, x, useAccessIp);
      var links := Associations(tbl, tbl.res[x].primary.id);
      && (links != [] ==> r["public_ipv4"] == Str(Attr(tbl, links[0], "floating_ip")))
      && (links == [] ==>
            ("public_ipv4" in r <==> "public_ipv4" in a.vals) &&
            ("public_ipv4" in r ==> r["public_ipv4"] == Str(a.vals["public_ipv4"])))
  {
    RecordLookup(tbl, x, useAccessIp, "public_ipv4");
    AddressKeysDotFree();
  }

  /** The repeated families, read off the record. */
  lemma HostRecordLists(tbl: Table, x: string, useAccessIp: bool)
    requires RecordDefined(tbl, x, useAccessIp)
    ensures var p := tbl.res[x].primary;
      var a := p.attributes;
      var r := HostRecord(tbl, x, useAccessIp);
      && r["network"] == NetworkValue(a)
      && r["scheduler_hints"] == SchedulerHintsValue(a)
      && r["metadata"] == List([Obj(StrMap(Metadata(a)))])
      && r["security_groups"] == SecurityGroupsValue(a)
      && r["floating_ips"] == FloatingIpsValue(tbl, p.id)
      && r["volumes"] == VolumesValue(tbl, p.id)
  {
  }
}
