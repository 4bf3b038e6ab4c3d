/** The inventory `terraform_inventory` builds (tofu/tofu.py:246-388), as a
    function of the table: the loop over the instances, one step per instance,
    and the document the result stands for. */
module Assembly {
  import opened Util
  import opened State
  import opened Lookup
  import opened Summary
  import opened Hosts
  import opened Groups

  /** The keys the document holds besides the groups. */
  const RESERVED: set<string> := {"_meta", "all", "tf_resources"}

  /** The arguments of `terraform_inventory`. An empty `groupBy` or `groups`
      stands for a missing or empty argument, which the source treats alike. */
  datatype Options = Options(groupBy: string, useAccessIp: bool, groups: string)

  /** The result: the resource summary (`tf_resources.vars`), the host records
      (`_meta.hostvars`), the host names of `all`, and the other groups. */
  datatype Inventory = Inventory(resources: Summary, hostvars: map<string, Value>, allHosts: seq<string>, groups: map<string, Group>)

  function TfResourcesValue(s: Summary): Value {
    Obj(map["hosts" := List([]), "vars" := SummaryValue(s)])
  }

  /** Before the loop: the summary, also reachable as `_meta.hostvars.tf_resources`,
      and no host. */
  function Initial(tbl: Table): Inventory
    requires WellFormed(tbl)
  {
    var s := ResourcesSummary(tbl);
    Inventory(s, map["tf_resources" := TfResourcesValue(s)], [], map[])
  }

  /** Server groups are rebuilt on every step exactly when no `group_by` is given
      and the table has server groups. */
  predicate ServerGroupsOn(tbl: Table, opts: Options)
    requires WellFormed(tbl)
  {
    opts.groupBy == "" && |ServerGroups(tbl)| > 0
  }

  /** The `group_by` every step uses: `name` when neither `group_by` nor `groups`
      is given and there is no server group, otherwise as given. The source
      assigns the default inside the first step, before its first use, and the
      value carries over to the later steps. */
  function EffectiveGroupBy(tbl: Table, opts: Options): string
    requires WellFormed(tbl)
  {
    if opts.groupBy == "" && |ServerGroups(tbl)| == 0 && opts.groups == "" then "name" else opts.groupBy
  }

  /** The group instance `x` joins through `group_by`: the value of that attribute. */
  function ByJoins(tbl: Table, x: string, opts: Options): seq<string>
    requires WellFormed(tbl) && x in tbl.res
    requires var eff := EffectiveGroupBy(tbl, opts); eff != "" ==> eff in AttrsOf(tbl, x).vals
  {
    var eff := EffectiveGroupBy(tbl, opts);
    if eff != "" then [AttrsOf(tbl, x).vals[eff]] else []
  }

  /** The groups instance `x` joins through `groups`: the comma-separated pieces
      of that attribute, when it is given and present. */
  function ListJoins(tbl: Table, x: string, opts: Options): seq<string>
    requires x in tbl.res
  {
    var a := AttrsOf(tbl, x);
    if opts.groups != "" && opts.groups in a.vals then Split(a.vals[opts.groups], ',') else []
  }

  /** The groups instance `x` joins, in order: the value of its `group_by`
      attribute, then the comma-separated pieces of its `groups` attribute. */
  function Joins(tbl: Table, x: string, opts: Options): seq<string>
    requires WellFormed(tbl) && x in tbl.res
    requires var eff := EffectiveGroupBy(tbl, opts); eff != "" ==> eff in AttrsOf(tbl, x).vals
  {
    ByJoins(tbl, x, opts) + ListJoins(tbl, x, opts)
  }

  /** Every instance of `xs` has a `name`. */
  ghost predicate NamesDefined(tbl: Table, xs: seq<string>) {
    WellFormed(tbl) && forall x :: x in xs ==> x in tbl.res && "name" in AttrsOf(tbl, x).vals
  }

  /** Every instance's record can be built. */
  ghost predicate RecordsDefined(tbl: Table, xs: seq<string>, opts: Options) {
    NamesDefined(tbl, xs) && forall x :: x in xs ==> RecordDefined(tbl, x, opts.useAccessIp)
  }

  /** What joining the groups reads without failing: each instance's `group_by`
      attribute, the server groups when they are rebuilt, and no group key that
      would land on `_meta`, `all` or `tf_resources`. */
  ghost predicate GroupsDefined(tbl: Table, xs: seq<string>, opts: Options) {
    && NamesDefined(tbl, xs)
    && (forall x :: x in xs && EffectiveGroupBy(tbl, opts) != "" ==> EffectiveGroupBy(tbl, opts) in AttrsOf(tbl, x).vals)
    && (forall x :: x in xs ==> forall k :: k in Joins(tbl, x, opts) ==> k !in RESERVED)
    && (xs != [] && ServerGroupsOn(tbl, opts) ==>
          forall s :: s in ServerGroups(tbl) ==> ServerGroupDefined(tbl, s) && ServerGroupName(tbl, s) !in RESERVED)
  }

  ghost predicate AllDefined(tbl: Table, xs: seq<string>, opts: Options) {
    NamesDefined(tbl, xs) && RecordsDefined(tbl, xs, opts) && GroupsDefined(tbl, xs, opts)
  }

  function Name(tbl: Table, x: string): string
    requires x in tbl.res && "name" in AttrsOf(tbl, x).vals
  {
    AttrsOf(tbl, x).vals["name"]
  }

  function InstanceId(tbl: Table, x: string): string
    requires x in tbl.res
  {
    tbl.res[x].primary.id
  }

  /** `all.hosts` after the instances `xs`: one name per instance, in order. */
  function Names(tbl: Table, xs: seq<string>): (r: seq<string>)
    requires NamesDefined(tbl, xs)
    ensures |r| == |xs| && forall i :: 0 <= i < |xs| ==> r[i] == Name(tbl, xs[i])
  {
    seq(|xs|, i requires 0 <= i < |xs| => Name(tbl, xs[i]))
  }

  /** The records of the instances `xs`, in order. */
  function Records(tbl: Table, xs: seq<string>, opts: Options): (r: seq<Value>)
    requires RecordsDefined(tbl, xs, opts)
    ensures |r| == |xs| && forall i :: 0 <= i < |xs| ==> r[i] == Obj(HostRecord(tbl, xs[i], opts.useAccessIp))
  {
    seq(|xs|, i requires 0 <= i < |xs| => Obj(HostRecord(tbl, xs[i], opts.useAccessIp)))
  }

  /** `_meta.hostvars` after the instances `xs`: each record stored under the
      instance's name in turn, a later instance of the same name replacing it. */
  function Hostvars(tbl: Table, xs: seq<string>, opts: Options): map<string, Value>
    requires RecordsDefined(tbl, xs, opts)
  {
    Assign(map["tf_resources" := TfResourcesValue(ResourcesSummary(tbl))], Names(tbl, xs), Records(tbl, xs, opts))
  }

  /** The groups before an instance joins any: rebuilt from the server groups
      when those are on. */
  function GroupsBefore(tbl: Table, groups: map<string, Group>, opts: Options): map<string, Group>
    requires WellFormed(tbl)
    requires ServerGroupsOn(tbl, opts) ==> forall s :: s in ServerGroups(tbl) ==> ServerGroupDefined(tbl, s)
  {
    if ServerGroupsOn(tbl, opts) then WithServerGroups(tbl, groups, ServerGroups(tbl)) else groups
  }

  /** The groups after the instances `xs`. */
  function GroupsAfter(tbl: Table, xs: seq<string>, opts: Options): map<string, Group>
    requires GroupsDefined(tbl, xs, opts)
    decreases |xs|
  {
    if xs == [] then map[]
    else
      var m := |xs| - 1;
      var x := xs[m];
      assert forall y :: y in xs[..m] ==> y in xs;
      AddHosts(GroupsBefore(tbl, GroupsAfter(tbl, xs[..m], opts), opts), Joins(tbl, x, opts), Name(tbl, x), InstanceId(tbl, x))
  }

  /** The loop over the instances `xs`, in order: each step stores the record,
      appends the name to `all`, rebuilds the server groups when they are on and
      lets the instance join its groups. */
  function Run(tbl: Table, xs: seq<string>, opts: Options): Inventory
    requires AllDefined(tbl, xs, opts)
  {
    Inventory(ResourcesSummary(tbl), Hostvars(tbl, xs, opts), Names(tbl, xs), GroupsAfter(tbl, xs, opts))
  }

  /** After all of `xs`, the loop's prefix is `xs` itself. */
  lemma RunAll(tbl: Table, xs: seq<string>, opts: Options)
    requires AllDefined(tbl, xs, opts)
    ensures AllDefined(tbl, xs[..|xs|], opts)
    ensures Run(tbl, xs[..|xs|], opts) == Run(tbl, xs, opts)
  {
    assert xs[..|xs|] == xs;
  }

  /** `terraform_inventory(group_by, use_access_ip, groups)` on the table. */
  function Assemble(tbl: Table, opts: Options): Inventory
    requires WellFormed(tbl) && AllDefined(tbl, Instances(tbl), opts)
  {
    Run(tbl, Instances(tbl), opts)
  }

  // ---------------------------------------------------------------------
  // Properties of the loop
  // ---------------------------------------------------------------------

  /** No instance: no host, no group, only the summary. */
  lemma RunEmpty(tbl: Table, opts: Options)
    requires WellFormed(tbl)
    ensures Run(tbl, [], opts).allHosts == [] && Run(tbl, [], opts).groups == map[]
    ensures Run(tbl, [], opts).hostvars.Keys == {"tf_resources"}
  {
  }

  /** The state before the loop: only the summary under `tf_resources`. */
  lemma RunStart(tbl: Table, xs: seq<string>, opts: Options)
    requires WellFormed(tbl)
    ensures AllDefined(tbl, xs[..0], opts)
    ensures Run(tbl, xs[..0], opts) ==
      Inventory(ResourcesSummary(tbl), map["tf_resources" := TfResourcesValue(ResourcesSummary(tbl))], [], map[])
  {
    assert xs[..0] == [];
  }

  /** The host records are keyed by instance name, next to `tf_resources`. */
  lemma HostvarsKeys(tbl: Table, xs: seq<string>, opts: Options)
    requires RecordsDefined(tbl, xs, opts)
    ensures forall k :: k in Hostvars(tbl, xs, opts) <==> k == "tf_resources" || k in Names(tbl, xs)
  {
    var base := map["tf_resources" := TfResourcesValue(ResourcesSummary(tbl))];
    var ns, rs := Names(tbl, xs), Records(tbl, xs, opts);
    forall k ensures k in Assign(base, ns, rs) <==> k in base || k in ns {
      AssignKeys(base, ns, rs, k);
    }
  }

  /** An instance's record survives under its name unless a later instance has
      the same name. */
  lemma HostvarsLast(tbl: Table, xs: seq<string>, opts: Options, i: nat)
    requires RecordsDefined(tbl, xs, opts)
    requires i < |xs| && forall j :: i < j < |xs| ==> Names(tbl, xs)[j] != Names(tbl, xs)[i]
    ensures Name(tbl, xs[i]) in Hostvars(tbl, xs, opts)
    ensures Hostvars(tbl, xs, opts)[Name(tbl, xs[i])] == Obj(HostRecord(tbl, xs[i], opts.useAccessIp))
  {
    AssignLast(map["tf_resources" := TfResourcesValue(ResourcesSummary(tbl))], Names(tbl, xs), Records(tbl, xs, opts), i);
  }

  /** The summary stays reachable through `_meta.hostvars` unless an instance is
      itself named `tf_resources`. */
  lemma HostvarsSummary(tbl: Table, xs: seq<string>, opts: Options)
    requires RecordsDefined(tbl, xs, opts)
    requires "tf_resources" !in Names(tbl, xs)
    ensures "tf_resources" in Hostvars(tbl, xs, opts)
    ensures Hostvars(tbl, xs, opts)["tf_resources"] == TfResourcesValue(ResourcesSummary(tbl))
  {
    AssignOthers(map["tf_resources" := TfResourcesValue(ResourcesSummary(tbl))], Names(tbl, xs), Records(tbl, xs, opts), "tf_resources");
  }

  /** The definedness conditions hold for every prefix of the instances. */
  lemma AllDefinedPrefix(tbl: Table, xs: seq<string>, opts: Options, i: nat)
    requires AllDefined(tbl, xs, opts) && i <= |xs|
    ensures AllDefined(tbl, xs[..i], opts)
  {
    assert forall y :: y in xs[..i] ==> y in xs;
  }

  /** What one step reads of the instance it handles. */
  lemma LastDefined(tbl: Table, xs: seq<string>, opts: Options)
    requires AllDefined(tbl, xs, opts) && xs != []
    ensures var x := xs[|xs| - 1];
      var eff := EffectiveGroupBy(tbl, opts);
      && x in tbl.res && "name" in AttrsOf(tbl, x).vals
      && RecordDefined(tbl, x, opts.useAccessIp)
      && (eff != "" ==> eff in AttrsOf(tbl, x).vals)
      && (ServerGroupsOn(tbl, opts) ==> forall s :: s in ServerGroups(tbl) ==> ServerGroupDefined(tbl, s))
  {
    assert xs[|xs| - 1] in xs;
  }

  /** One step of `all.hosts`: the instance's name is appended. */
  lemma NamesStep(tbl: Table, xs: seq<string>)
    requires NamesDefined(tbl, xs) && xs != []
    ensures var m := |xs| - 1;
      NamesDefined(tbl, xs[..m]) && Names(tbl, xs) == Names(tbl, xs[..m]) + [Name(tbl, xs[m])]
  {
    var m := |xs| - 1;
    assert forall y :: y in xs[..m] ==> y in xs;
    assert Names(tbl, xs) == Names(tbl, xs[..m]) + [Name(tbl, xs[m])];
  }

  /** One step of `_meta.hostvars`: the instance's record is stored under its name. */
  lemma HostvarsStep(tbl: Table, xs: seq<string>, opts: Options)
    requires RecordsDefined(tbl, xs, opts) && xs != []
    ensures var m := |xs| - 1;
      && RecordsDefined(tbl, xs[..m], opts)
      && Hostvars(tbl, xs, opts) == Hostvars(tbl, xs[..m], opts)[Name(tbl, xs[m]) := Obj(HostRecord(tbl, xs[m], opts.useAccessIp))]
  {
    var m := |xs| - 1;
    assert forall y :: y in xs[..m] ==> y in xs;
    var base := map["tf_resources" := TfResourcesValue(ResourcesSummary(tbl))];
    var ns, rs := Names(tbl, xs), Records(tbl, xs, opts);
    NamesStep(tbl, xs);
    assert ns[..m] == Names(tbl, xs[..m]);
    RecordsPrefix(tbl, xs, opts);
    AssignSnoc(base, ns, rs);
  }

  lemma RecordsPrefix(tbl: Table, xs: seq<string>, opts: Options)
    requires RecordsDefined(tbl, xs, opts) && xs != []
    ensures var m := |xs| - 1;
      RecordsDefined(tbl, xs[..m], opts) && Records(tbl, xs, opts)[..m] == Records(tbl, xs[..m], opts)
  {
    var m := |xs| - 1;
    assert forall y :: y in xs[..m] ==> y in xs;
    var r, f := Records(tbl, xs, opts), Records(tbl, xs[..m], opts);
    forall i | 0 <= i < m ensures r[i] == f[i] {
      assert xs[..m][i] == xs[i];
    }
  }

  /** One step of the groups: the server groups are rebuilt when on, then the
      instance joins the group its `group_by` attribute names and then each
      group of its `groups` attribute. */
  lemma GroupsStep(tbl: Table, xs: seq<string>, opts: Options, i: nat)
    requires i < |xs| && GroupsDefined(tbl, xs[..i + 1], opts)
    ensures GroupsDefined(tbl, xs[..i], opts) && xs[i] in tbl.res
    ensures var x := xs[i];
      GroupsAfter(tbl, xs[..i + 1], opts) ==
        AddHosts(AddHosts(GroupsBefore(tbl, GroupsAfter(tbl, xs[..i], opts), opts),
                          ByJoins(tbl, x, opts), Name(tbl, x), InstanceId(tbl, x)),
                 ListJoins(tbl, x, opts), Name(tbl, x), InstanceId(tbl, x))
  {
    var x := xs[i];
    PrefixStep(xs, i);
    assert forall y :: y in xs[..i] ==> y in xs[..i + 1];
    assert x in xs[..i + 1];
    AddHostsConcat(GroupsBefore(tbl, GroupsAfter(tbl, xs[..i], opts), opts),
                   ByJoins(tbl, x, opts), ListJoins(tbl, x, opts), Name(tbl, x), InstanceId(tbl, x));
  }

  /** One step of the loop for instance `xs[i]`: the record is stored under the
      name, the name is appended to `all`, and the instance joins its groups
      after the server groups are rebuilt (when on). */
  lemma RunStep(tbl: Table, xs: seq<string>, opts: Options, i: nat)
    requires i < |xs| && AllDefined(tbl, xs[..i + 1], opts)
    ensures AllDefined(tbl, xs[..i], opts)
    ensures var x := xs[i];
      var eff := EffectiveGroupBy(tbl, opts);
      && x in tbl.res && "name" in AttrsOf(tbl, x).vals
      && RecordDefined(tbl, x, opts.useAccessIp)
      && (eff != "" ==> eff in AttrsOf(tbl, x).vals)
      && (ServerGroupsOn(tbl, opts) ==> forall s :: s in ServerGroups(tbl) ==> ServerGroupDefined(tbl, s))
    ensures var x := xs[i];
      var r := Run(tbl, xs[..i], opts);
      Run(tbl, xs[..i + 1], opts) ==
        Inventory(r.resources, r.hostvars[Name(tbl, x) := Obj(HostRecord(tbl, x, opts.useAccessIp))], r.allHosts + [Name(tbl, x)],
                  AddHosts(AddHosts(GroupsBefore(tbl, r.groups, opts), ByJoins(tbl, x, opts), Name(tbl, x), InstanceId(tbl, x)),
                           ListJoins(tbl, x, opts), Name(tbl, x), InstanceId(tbl, x)))
  {
    var ys := xs[..i + 1];
    PrefixStep(xs, i);
    LastDefined(tbl, ys, opts);
    HostvarsStep(tbl, ys, opts);
    NamesStep(tbl, ys);
    GroupsStep(tbl, xs, opts, i);
  }

  // ---------------------------------------------------------------------
  // Properties of the groups
  // ---------------------------------------------------------------------

  /** Every group key the instances `xs` name, in order. */
  function AllJoins(tbl: Table, xs: seq<string>, opts: Options): seq<string>
    requires GroupsDefined(tbl, xs, opts)
    decreases |xs|
  {
    if xs == [] then []
    else
      var m := |xs| - 1;
      assert forall y :: y in xs[..m] ==> y in xs;
      AllJoins(tbl, xs[..m], opts) + Joins(tbl, xs[m], opts)
  }

  /** The hosts a group collects over `xs`: each instance's name once for every
      time the instance names the group, in instance order. */
  function HostsFor(tbl: Table, xs: seq<string>, opts: Options, k: string): seq<string>
    requires GroupsDefined(tbl, xs, opts)
    decreases |xs|
  {
    if xs == [] then []
    else
      var m := |xs| - 1;
      assert forall y :: y in xs[..m] ==> y in xs;
      HostsFor(tbl, xs[..m], opts, k) + Repeat(Name(tbl, xs[m]), Occurrences(Joins(tbl, xs[m], opts), k))
  }

  /** The instance ids a group collects over `xs`, alongside `HostsFor`. */
  function NodesFor(tbl: Table, xs: seq<string>, opts: Options, k: string): seq<string>
    requires GroupsDefined(tbl, xs, opts)
    decreases |xs|
  {
    if xs == [] then []
    else
      var m := |xs| - 1;
      assert forall y :: y in xs[..m] ==> y in xs;
      NodesFor(tbl, xs[..m], opts, k) + Repeat(InstanceId(tbl, xs[m]), Occurrences(Joins(tbl, xs[m], opts), k))
  }

  /** Without server groups, the groups are exactly the keys the instances
      name, and each holds the hosts and ids of the instances that named it, in
      order and once per mention, with `scale == |hosts| == |nodes|` and no
      other vars. */
  lemma {:induction false} DynamicGroups(tbl: Table, xs: seq<string>, opts: Options, k: string)
    requires GroupsDefined(tbl, xs, opts) && !ServerGroupsOn(tbl, opts)
    ensures var g := GroupsAfter(tbl, xs, opts);
      && (k in g <==> k in AllJoins(tbl, xs, opts))
      && (k in g ==> g[k] == Group(HostsFor(tbl, xs, opts, k), NodesFor(tbl, xs, opts, k), |HostsFor(tbl, xs, opts, k)|, map[]))
      && (k in g ==> Balanced(g[k]))
      && (k !in g ==> HostsFor(tbl, xs, opts, k) == [] && NodesFor(tbl, xs, opts, k) == [])
    decreases |xs|
  {
    if xs != [] {
      var m := |xs| - 1;
      var x := xs[m];
      var front := xs[..m];
      assert forall y :: y in front ==> y in xs;
      DynamicGroups(tbl, front, opts, k);
      var g0 := GroupsAfter(tbl, front, opts);
      var js := Joins(tbl, x, opts);
      var n := Occurrences(js, k);
      AddHostsKeys(g0, js, Name(tbl, x), InstanceId(tbl, x), k);
      var prev := if k in g0 then g0[k] else Fresh;
      var h0, d0 := HostsFor(tbl, front, opts, k), NodesFor(tbl, front, opts, k);
      assert prev == Group(h0, d0, |h0|, map[]);
      JoinedShape(prev, Name(tbl, x), InstanceId(tbl, x), n);
      if k in GroupsAfter(tbl, xs, opts) {
        AddHostsJoined(g0, js, Name(tbl, x), InstanceId(tbl, x), k);
      } else {
        assert n == 0;
      }
    }
  }

  /** With no `group_by`, no `groups` and no server group, every instance joins
      the group of its own name, and those are all the groups. */
  lemma DefaultGroupByName(tbl: Table, xs: seq<string>, opts: Options)
    requires GroupsDefined(tbl, xs, opts)
    requires opts.groupBy == "" && opts.groups == "" && |ServerGroups(tbl)| == 0
    ensures EffectiveGroupBy(tbl, opts) == "name"
    ensures forall x :: x in xs ==> Joins(tbl, x, opts) == [Name(tbl, x)]
    ensures forall k :: k in GroupsAfter(tbl, xs, opts) <==> k in Names(tbl, xs)
  {
    forall x | x in xs ensures Joins(tbl, x, opts) == [Name(tbl, x)] {
    }
    forall k ensures k in GroupsAfter(tbl, xs, opts) <==> k in Names(tbl, xs) {
      DynamicGroups(tbl, xs, opts, k);
      DefaultJoins(tbl, xs, opts, k);
    }
  }

  /** `all.hosts` grows by the step's name. */
  lemma NamesSnoc(tbl: Table, xs: seq<string>, k: string)
    requires NamesDefined(tbl, xs) && xs != []
    ensures var m := |xs| - 1;
      && NamesDefined(tbl, xs[..m])
      && (k in Names(tbl, xs) <==> k in Names(tbl, xs[..m]) || k == Name(tbl, xs[m]))
  {
    var m := |xs| - 1;
    assert forall y :: y in xs[..m] ==> y in xs;
    var ns, fs := Names(tbl, xs), Names(tbl, xs[..m]);
    if k in ns {
      var i :| 0 <= i < |ns| && ns[i] == k;
      if i < m {
        assert fs[i] == k;
      }
    }
    if k in fs {
      var i :| 0 <= i < m && fs[i] == k;
      assert ns[i] == k;
    }
    if k == Name(tbl, xs[m]) {
      assert ns[m] == k;
    }
  }

  /** When every instance names only its own name, the keys named are the names. */
  lemma {:induction false} DefaultJoins(tbl: Table, xs: seq<string>, opts: Options, k: string)
    requires GroupsDefined(tbl, xs, opts)
    requires forall x :: x in xs ==> Joins(tbl, x, opts) == [Name(tbl, x)]
    ensures k in AllJoins(tbl, xs, opts) <==> k in Names(tbl, xs)
    decreases |xs|
  {
    if xs != [] {
      var m := |xs| - 1;
      assert forall y :: y in xs[..m] ==> y in xs;
      DefaultJoins(tbl, xs[..m], opts, k);
      assert xs[m] in xs;
      assert AllJoins(tbl, xs, opts) == AllJoins(tbl, xs[..m], opts) + [Name(tbl, xs[m])];
      NamesSnoc(tbl, xs, k);
    }
  }

  /** In its own step an instance joins every group it names, at the end of the
      group's hosts and nodes, once per mention, whatever the groups held before. */
  lemma StepJoins(tbl: Table, xs: seq<string>, opts: Options, k: string)
    requires GroupsDefined(tbl, xs, opts) && xs != [] && k in Joins(tbl, xs[|xs| - 1], opts)
    ensures var x := xs[|xs| - 1];
      var before := GroupsBefore(tbl, GroupsAfter(tbl, xs[..|xs| - 1], opts), opts);
      var g := GroupsAfter(tbl, xs, opts);
      && k in g
      && g[k] == Joined(if k in before then before[k] else Fresh, Name(tbl, x), InstanceId(tbl, x), Occurrences(Joins(tbl, x, opts), k))
  {
    var m := |xs| - 1;
    var x := xs[m];
    assert forall y :: y in xs[..m] ==> y in xs;
    var before := GroupsBefore(tbl, GroupsAfter(tbl, xs[..m], opts), opts);
    AddHostsKeys(before, Joins(tbl, x, opts), Name(tbl, x), InstanceId(tbl, x), k);
    AddHostsJoined(before, Joins(tbl, x, opts), Name(tbl, x), InstanceId(tbl, x), k);
  }

  /** The fan-out: when the last instance carries the `groups` attribute, every
      comma-separated piece of its value names a group afterwards, that instance
      is among the group's hosts and nodes, and `scale` counts the group's hosts. */
  lemma FanOut(tbl: Table, xs: seq<string>, opts: Options, k: string)
    requires GroupsDefined(tbl, xs, opts) && xs != []
    requires opts.groups != "" && opts.groups in AttrsOf(tbl, xs[|xs| - 1]).vals
    requires k in Split(AttrsOf(tbl, xs[|xs| - 1]).vals[opts.groups], ',')
    ensures var x := xs[|xs| - 1];
      var g := GroupsAfter(tbl, xs, opts);
      && k in g
      && Name(tbl, x) in g[k].hosts && InstanceId(tbl, x) in g[k].nodes
      && g[k].scale == |g[k].hosts|
  {
    var m := |xs| - 1;
    var x := xs[m];
    assert k in ListJoins(tbl, x, opts);
    assert k in Joins(tbl, x, opts);
    StepJoins(tbl, xs, opts, k);
    var before := GroupsBefore(tbl, GroupsAfter(tbl, xs[..m], opts), opts);
    JoinedHolds(if k in before then before[k] else Fresh, Name(tbl, x), InstanceId(tbl, x), Occurrences(Joins(tbl, x, opts), k));
  }

  /** With server groups on and no `groups` argument, only server groups exist. */
  lemma {:induction false} ServerGroupKeysOnly(tbl: Table, xs: seq<string>, opts: Options)
    requires GroupsDefined(tbl, xs, opts) && ServerGroupsOn(tbl, opts) && opts.groups == ""
    ensures forall k :: k in GroupsAfter(tbl, xs, opts) ==> k in ServerGroupNames(tbl, ServerGroups(tbl))
    decreases |xs|
  {
    if xs != [] {
      var m := |xs| - 1;
      assert forall y :: y in xs[..m] ==> y in xs;
      ServerGroupKeysOnly(tbl, xs[..m], opts);
      assert Joins(tbl, xs[m], opts) == [];
      WithServerGroupsEffect(tbl, GroupsAfter(tbl, xs[..m], opts), ServerGroups(tbl));
    }
  }

  /** The last step of the groups, as `GroupsAfter` takes it. */
  lemma GroupsLast(tbl: Table, xs: seq<string>, opts: Options)
    requires GroupsDefined(tbl, xs, opts) && xs != []
    ensures var m := |xs| - 1;
      && GroupsDefined(tbl, xs[..m], opts) && xs[m] in tbl.res
      && (ServerGroupsOn(tbl, opts) ==> forall s :: s in ServerGroups(tbl) ==> ServerGroupDefined(tbl, s))
      && GroupsAfter(tbl, xs, opts) ==
           AddHosts(GroupsBefore(tbl, GroupsAfter(tbl, xs[..m], opts), opts), Joins(tbl, xs[m], opts), Name(tbl, xs[m]), InstanceId(tbl, xs[m]))
  {
    assert forall y :: y in xs[..|xs| - 1] ==> y in xs;
  }

  /** With server groups on and no `groups` argument, the last step only
      rebuilds the server groups over the groups so far, which are all server groups. */
  lemma ServerGroupLastStep(tbl: Table, xs: seq<string>, opts: Options)
    requires GroupsDefined(tbl, xs, opts) && ServerGroupsOn(tbl, opts) && opts.groups == "" && xs != []
    ensures GroupsDefined(tbl, xs[..|xs| - 1], opts)
    ensures forall s :: s in ServerGroups(tbl) ==> ServerGroupDefined(tbl, s)
    ensures forall k :: k in GroupsAfter(tbl, xs[..|xs| - 1], opts) ==> k in ServerGroupNames(tbl, ServerGroups(tbl))
    ensures GroupsAfter(tbl, xs, opts) == WithServerGroups(tbl, GroupsAfter(tbl, xs[..|xs| - 1], opts), ServerGroups(tbl))
  {
    var m := |xs| - 1;
    GroupsLast(tbl, xs, opts);
    ServerGroupKeysOnly(tbl, xs[..m], opts);
    assert Joins(tbl, xs[m], opts) == [];
  }

  /** With server groups on and no `groups` argument, the groups after at least
      one instance are exactly the server groups, each the one rebuilt from the
      last server group of its name. */
  lemma ServerGroupRun(tbl: Table, xs: seq<string>, opts: Options)
    requires GroupsDefined(tbl, xs, opts) && ServerGroupsOn(tbl, opts) && opts.groups == "" && xs != []
    ensures OnlyServerGroups(tbl, GroupsAfter(tbl, xs, opts), ServerGroups(tbl))
  {
    ServerGroupLastStep(tbl, xs, opts);
    WithServerGroupsOver(tbl, GroupsAfter(tbl, xs[..|xs| - 1], opts), ServerGroups(tbl));
  }
}
