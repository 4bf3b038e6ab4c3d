/** The `TerraformInventory` object (tofu/tofu.py:62-388): the resource table it
    was given, its instances, and the inventory `ansible_inventory` last built.
    Its methods run the loops of the source and are proved against the
    functions of the other modules. */
module Engine {
  import opened Util
  import opened Patterns
  import opened State
  import opened Lookup
  import opened Summary
  import opened Hosts
  import opened Groups
  import opened Assembly

  class TerraformInventory {
    /** `self.resources`: `modules[0].resources` of the state. */
    const resources: Table
    /** `self.instances`: the instance keys, in table order. */
    const instances: seq<string>
    /** `self.inventory`: `None` stands for the initial `{}`. */
    var inventory: Option<Inventory>

    /** The object after reading the state; how the state is obtained is not modelled. */
    constructor (tbl: Table)
      requires WellFormed(tbl)
      ensures resources == tbl && instances == Instances(tbl) && inventory == None
    {
      resources := tbl;
      instances := Instances(tbl);
      inventory := None;
    }

    /** `get_volume(volid)`: the loop over the first matching volume's attributes. */
    method GetVolume(volid: string) returns (r: Option<map<string, string>>)
      requires WellFormed(resources) && AllHave(resources, Volumes(resources), "id")
      ensures r == Volume(resources, volid)
    {
      var vid := Matching(resources, Volumes(resources), "id", volid);
      if vid == [] {
        return None;
      }
      var attrs := AttrsOf(resources, vid[0]);
      var res: map<string, string> := map[];
      for j := 0 to |attrs.keys|
        invariant res == Rekeyed(attrs.keys[..j], attrs.vals, KeepAll, StripAttachment)
      {
        var a := attrs.keys[j];
        assert attrs.keys[..j + 1][..j] == attrs.keys[..j];
        res := res[StripAttachment(a) := attrs.vals[a]];
      }
      assert attrs.keys[..|attrs.keys|] == attrs.keys;
      return Some(res);
    }

    /** `terraform_resources()`: the loop over the twelve (key, type) pairs; a
        family without resources, or with a resource that has neither `name` nor
        `id`, gets `{}`. */
    method TerraformResources() returns (result: Summary)
      requires WellFormed(resources)
      ensures result == ResourcesSummary(resources)
    {
      result := map[];
      SummaryUpToEnds(resources);
      for i := 0 to |SUMMARY_TYPES|
        invariant result == SummaryUpTo(resources, i)
      {
        var (key, value) := SUMMARY_TYPES[i];
        SummaryUpToStep(resources, i);
        var rs := GetResources(resources, value);
        if rs == [] || exists k :: k in rs && !Keyable(resources, k) {
          result := result[key := map[]];
        } else {
          result := result[key := Entries(resources, rs)];
        }
      }
    }

    /** One host record, built assignment by assignment as the loop body does:
        the dot-free attributes, then the floating IPs, `ansible_host`,
        `public_ipv4`, the volumes, `id`/`meta`/`tainted`, the metadata, the
        networks, the scheduler hints and the security groups. */
    method BuildHostRecord(x: string, useAccessIp: bool) returns (rec: map<string, Value>)
      requires RecordDefined(resources, x, useAccessIp)
      ensures rec == HostRecord(resources, x, useAccessIp)
    {
      var node := resources.res[x].primary;
      var iid := node.id;
      var attributes := node.attributes;
      rec := Scalars(attributes);
      var fips := FloatingIpsValue(resources, iid);
      rec := rec["floating_ips" := fips];
      // `access_ip_v4`, or else the first floating IP's address, or nothing
      var host := AnsibleHost(resources, attributes, iid, useAccessIp);
      rec := SetIfPresent(rec, "ansible_host", host);
      var pub := PublicIpv4(resources, iid);
      rec := SetIfPresent(rec, "public_ipv4", pub);
      var vols := VolumesValue(resources, iid);
      rec := rec["volumes" := vols];
      rec := rec["id" := Str(node.id)]["meta" := node.meta]["tainted" := Bool(node.tainted)];
      var md := List([Obj(StrMap(Metadata(attributes)))]);
      rec := rec["metadata" := md];
      var nets := BuildNetworks(attributes);
      rec := rec["network" := List(nets)];
      var hints := BuildSchedulerHints(attributes);
      rec := rec["scheduler_hints" := List(hints)];
      var sgs := SecurityGroupsValue(attributes);
      rec := rec["security_groups" := sgs];
      HostRecordAssigned(resources, x, useAccessIp);
    }

    /** A server group rebuilt: its vars, `nodes` from the member keys of the
        vars, `scale` from `members.#`, and `hosts` the names of the member
        instances. */
    method RebuildServerGroup(x: string) returns (g: Group)
      requires ServerGroupDefined(resources, x)
      ensures g == ServerGroup(resources, x)
    {
      var vars := BuildServerGroupVars(AttrsOf(resources, x));
      var nodes := MemberValues(vars);
      var hosts := MemberNames(resources, nodes);
      g := Group(hosts, nodes, DecimalValue(vars.vals["members.#"]), vars.vals);
    }

    /** The loop over the server groups: each is rebuilt under its name,
        replacing whatever group had that name. */
    method AddServerGroups(groups: map<string, Group>) returns (r: map<string, Group>)
      requires WellFormed(resources)
      requires forall s :: s in ServerGroups(resources) ==> ServerGroupDefined(resources, s)
      ensures r == WithServerGroups(resources, groups, ServerGroups(resources))
    {
      var sgs := ServerGroups(resources);
      r := groups;
      for j := 0 to |sgs|
        invariant forall y :: y in sgs[..j] ==> ServerGroupDefined(resources, y)
        invariant r == WithServerGroups(resources, groups, sgs[..j])
      {
        var x := sgs[j];
        WithServerGroupsStep(resources, groups, sgs, j);
        var name := ServerGroupName(resources, x);
        var group := RebuildServerGroup(x);
        r := r[name := group];
      }
      assert sgs[..|sgs|] == sgs;
    }

    /** `terraform_inventory(group_by, use_access_ip, groups)`: the summary,
        then the loop over the instances. The local `group_by` takes the
        default `name` in the first step that needs it and keeps it in the
        later steps. */
    method TerraformInventory(groupBy: string, useAccessIp: bool, groups: string) returns (result: Inventory)
      requires WellFormed(resources) && AllDefined(resources, instances, Options(groupBy, useAccessIp, groups))
      ensures result == Run(resources, instances, Options(groupBy, useAccessIp, groups))
    {
      var opts := Options(groupBy, useAccessIp, groups);
      result := StartInventory(opts);
      var currentGroupBy := groupBy;
      for i := 0 to |instances|
        invariant AllDefined(resources, instances[..i], opts)
        invariant result == Run(resources, instances[..i], opts)
        invariant currentGroupBy == if i == 0 then groupBy else EffectiveGroupBy(resources, opts)
      {
        AllDefinedPrefix(resources, instances, opts, i + 1);
        result, currentGroupBy := InstanceStep(result, i, currentGroupBy, opts);
      }
      RunAll(resources, instances, opts);
    }

    /** The state before the loop: the summary, stored under `tf_resources`. */
    method StartInventory(opts: Options) returns (result: Inventory)
      requires WellFormed(resources)
      ensures AllDefined(resources, instances[..0], opts)
      ensures result == Run(resources, instances[..0], opts)
    {
      var summary := TerraformResources();
      result := Inventory(summary, map["tf_resources" := TfResourcesValue(summary)], [], map[]);
      RunStart(resources, instances, opts);
    }

    /** The loop body for instance `instances[i]`: its record is stored under
        its name, the name is appended to `all`, and the instance joins its
        groups. */
    method InstanceStep(inv: Inventory, i: nat, currentGroupBy: string, opts: Options)
      returns (next: Inventory, nextGroupBy: string)
      requires WellFormed(resources) && i < |instances|
      requires AllDefined(resources, instances[..i + 1], opts) && AllDefined(resources, instances[..i], opts)
      requires inv == Run(resources, instances[..i], opts)
      requires currentGroupBy == if i == 0 then opts.groupBy else EffectiveGroupBy(resources, opts)
      ensures next == Run(resources, instances[..i + 1], opts)
      ensures nextGroupBy == EffectiveGroupBy(resources, opts)
    {
      RunStep(resources, instances, opts, i);
      var x := instances[i];
      var node := resources.res[x].primary;
      var key := node.attributes.vals["name"];
      var rec := BuildHostRecord(x, opts.useAccessIp);
      var gs;
      gs, nextGroupBy := JoinStep(inv.groups, x, currentGroupBy, opts);
      next := Inventory(inv.resources, inv.hostvars[key := Obj(rec)], inv.allHosts + [key], gs);
    }

    /** The groups part of one step for instance `x`: the server groups are
        rebuilt when no `group_by` is given and there are server groups,
        otherwise `group_by` defaults to `name` when `groups` is not given
        either; then the instance joins the group its `group_by` attribute
        names and each group of its `groups` attribute. */
    method JoinStep(gs: map<string, Group>, x: string, currentGroupBy: string, opts: Options)
      returns (r: map<string, Group>, nextGroupBy: string)
      requires WellFormed(resources) && x in resources.res && "name" in AttrsOf(resources, x).vals
      requires currentGroupBy == opts.groupBy || currentGroupBy == EffectiveGroupBy(resources, opts)
      requires ServerGroupsOn(resources, opts) ==> forall s :: s in ServerGroups(resources) ==> ServerGroupDefined(resources, s)
      requires var eff := EffectiveGroupBy(resources, opts); eff != "" ==> eff in AttrsOf(resources, x).vals
      ensures nextGroupBy == EffectiveGroupBy(resources, opts)
      ensures r == AddHosts(AddHosts(GroupsBefore(resources, gs, opts), ByJoins(resources, x, opts), Name(resources, x), InstanceId(resources, x)),
                            ListJoins(resources, x, opts), Name(resources, x), InstanceId(resources, x))
    {
      var node := resources.res[x].primary;
      var iid := node.id;
      var attributes := node.attributes;
      var key := attributes.vals["name"];
      r := gs;
      nextGroupBy := currentGroupBy;
      var serverGroups := ServerGroups(resources);
      if nextGroupBy == "" && |serverGroups| > 0 {
        r := AddServerGroups(r);
      } else if nextGroupBy == "" && opts.groups == "" {
        nextGroupBy := "name";
      }
      if nextGroupBy != "" {
        AddHostsOne(r, attributes.vals[nextGroupBy], key, iid);
        r := AddHost(r, attributes.vals[nextGroupBy], key, iid);
      }
      if opts.groups != "" && opts.groups in attributes.vals {
        r := JoinGroups(r, Split(attributes.vals[opts.groups], ','), key, iid);
      }
    }

    /** `ansible_inventory(group_by, use_access_ip, groups)`: builds the
        inventory and keeps it. */
    method AnsibleInventory(groupBy: string, useAccessIp: bool, groups: string) returns (inv: Inventory)
      requires WellFormed(resources) && instances == Instances(resources)
      requires AllDefined(resources, instances, Options(groupBy, useAccessIp, groups))
      modifies this
      ensures inv == Assemble(resources, Options(groupBy, useAccessIp, groups))
      ensures inventory == Some(inv)
    {
      inv := TerraformInventory(groupBy, useAccessIp, groups);
      inventory := Some(inv);
    }
  }

  /** The `network` list: for each index below `network.#`, the entry of that index. */
  method BuildNetworks(a: Attrs) returns (nets: seq<Value>)
    requires AttrsWF(a) && CountsDefined(a)
    ensures List(nets) == NetworkValue(a)
  {
    nets := [];
    if "network.#" in a.vals {
      var n := DecimalValue(a.vals["network.#"]);
      for i := 0 to n
        invariant |nets| == i && forall j :: 0 <= j < i ==> nets[j] == Obj(StrMap(NetworkEntry(a, j)))
      {
        nets := nets + [Obj(StrMap(NetworkEntry(a, i)))];
      }
    }
    assert nets == NetworkValue(a).items;
  }

  /** The `scheduler_hints` list: the hint map once for each index below `scheduler_hints.#`. */
  method BuildSchedulerHints(a: Attrs) returns (hints: seq<Value>)
    requires AttrsWF(a) && CountsDefined(a)
    ensures List(hints) == SchedulerHintsValue(a)
  {
    hints := [];
    if "scheduler_hints.#" in a.vals {
      var n := DecimalValue(a.vals["scheduler_hints.#"]);
      for i := 0 to n
        invariant |hints| == i && forall j :: 0 <= j < i ==> hints[j] == Obj(StrMap(SchedulerHint(a)))
      {
        hints := hints + [Obj(StrMap(SchedulerHint(a)))];
      }
    }
    assert hints == SchedulerHintsValue(a).items;
  }

  /** The host joins each group of `ks` in turn (the loop over the pieces of
      the `groups` attribute). */
  method JoinGroups(groups: map<string, Group>, ks: seq<string>, name: string, iid: string) returns (r: map<string, Group>)
    ensures r == AddHosts(groups, ks, name, iid)
  {
    r := groups;
    for j := 0 to |ks|
      invariant r == AddHosts(groups, ks[..j], name, iid)
    {
      assert ks[..j + 1][..j] == ks[..j];
      r := AddHost(r, ks[j], name, iid);
    }
    assert ks[..|ks|] == ks;
  }

  /** The loop over a server group's attributes: each value is written under
      the `value_specs.`-stripped name and then under the original name. */
  method WriteSpecVars(a: Attrs) returns (vars: Dict)
    requires AttrsWF(a)
    ensures vars == SpecVars(a, a.keys)
  {
    vars := Dict([], map[]);
    for j := 0 to |a.keys|
      invariant vars == SpecVars(a, a.keys[..j])
    {
      var y := a.keys[j];
      PrefixStep(a.keys, j);
      var k := StripValueSpecs(y);
      vars := Put(vars, k, a.vals[y]);
      vars := Put(vars, y, a.vals[y]);
    }
    assert a.keys[..|a.keys|] == a.keys;
  }

  /** A server group's vars: the attribute loop, then `%` deleted when present. */
  method BuildServerGroupVars(a: Attrs) returns (vars: Dict)
    requires AttrsWF(a)
    ensures vars == ServerGroupVars(a)
  {
    vars := WriteSpecVars(a);
    if "%" in vars.vals {
      vars := Delete(vars, "%");
    } else {
      FilterAll(vars.keys, Other("%"));
      assert vars.vals - {"%"} == vars.vals;
    }
  }

  /** The record's assignments after the dot-free attributes `s`, in source order. */
  function Assignments(s: map<string, Value>, p: Primary, fips: Value, vols: Value, md: Value, net: Value, hints: Value,
                       sgs: Value, host: Option<string>, pub: Option<string>): map<string, Value>
  {
    SetIfPresent(SetIfPresent(s["floating_ips" := fips], "ansible_host", host), "public_ipv4", pub)
      ["volumes" := vols]["id" := Str(p.id)]["meta" := p.meta]["tainted" := Bool(p.tainted)]
      ["metadata" := md]["network" := net]["scheduler_hints" := hints]["security_groups" := sgs]
  }

  /** The record is the dot-free attributes with the derived values assigned
      onto them one after the other. */
  lemma HostRecordAssigned(tbl: Table, x: string, useAccessIp: bool)
    requires RecordDefined(tbl, x, useAccessIp)
    ensures var p := tbl.res[x].primary;
      var a := p.attributes;
      HostRecord(tbl, x, useAccessIp) ==
        Assignments(Scalars(a), p, FloatingIpsValue(tbl, p.id), VolumesValue(tbl, p.id), List([Obj(StrMap(Metadata(a)))]),
                    NetworkValue(a), SchedulerHintsValue(a), SecurityGroupsValue(a),
                    AnsibleHost(tbl, a, p.id, useAccessIp), PublicIpv4(tbl, p.id))
  {
    var p := tbl.res[x].primary;
    var a := p.attributes;
    AssignmentsDerived(Scalars(a), p, FloatingIpsValue(tbl, p.id), VolumesValue(tbl, p.id), List([Obj(StrMap(Metadata(a)))]),
                       NetworkValue(a), SchedulerHintsValue(a), SecurityGroupsValue(a),
                       AnsibleHost(tbl, a, p.id, useAccessIp), PublicIpv4(tbl, p.id));
  }

  /** A key assigned after `s + d` is assigned in `d`. */
  lemma PlusUpdate(s: map<string, Value>, d: map<string, Value>, k: string, v: Value)
    ensures (s + d)[k := v] == s + d[k := v]
  {
  }

  /** The same for an assignment that may not happen. */
  lemma PlusSet(s: map<string, Value>, d: map<string, Value>, k: string, o: Option<string>)
    ensures SetIfPresent(s + d, k, o) == s + SetIfPresent(d, k, o)
  {
  }

  /** Assigning the derived keys one after the other onto `s` is `s`
      overwritten by all of them at once. */
  lemma AssignmentsDerived(s: map<string, Value>, p: Primary, fips: Value, vols: Value, md: Value, net: Value,
                           hints: Value, sgs: Value, host: Option<string>, pub: Option<string>)
    ensures Assignments(s, p, fips, vols, md, net, hints, sgs, host, pub) ==
      s + Derived(p, fips, vols, md, net, hints, sgs, host, pub)
  {
    var d0 := map["floating_ips" := fips];
    assert s["floating_ips" := fips] == s + d0;
    var d1 := SetIfPresent(d0, "ansible_host", host);
    PlusSet(s, d0, "ansible_host", host);
    var d2 := SetIfPresent(d1, "public_ipv4", pub);
    PlusSet(s, d1, "public_ipv4", pub);
    var d3 := d2["volumes" := vols];
    PlusUpdate(s, d2, "volumes", vols);
    var d4 := d3["id" := Str(p.id)];
    PlusUpdate(s, d3, "id", Str(p.id));
    var d5 := d4["meta" := p.meta];
    PlusUpdate(s, d4, "meta", p.meta);
    var d6 := d5["tainted" := Bool(p.tainted)];
    PlusUpdate(s, d5, "tainted", Bool(p.tainted));
    var d7 := d6["metadata" := md];
    PlusUpdate(s, d6, "metadata", md);
    var d8 := d7["network" := net];
    PlusUpdate(s, d7, "network", net);
    var d9 := d8["scheduler_hints" := hints];
    PlusUpdate(s, d8, "scheduler_hints", hints);
    PlusUpdate(s, d9, "security_groups", sgs);
  }
}
