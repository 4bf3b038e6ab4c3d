/** The groups of the inventory (tofu/tofu.py:326-386): the group a host joins
    through `group_by`, the groups it fans out to through the comma-separated
    `groups` attribute, and the groups rebuilt from the server groups. */
module Groups {
  import opened Util
  import opened Patterns
  import opened PatternFacts
  import opened State
  import opened Lookup

  /** A group: its host names and its `vars`, that is the instance ids (`nodes`),
      `scale` and, for a server group, the server group's rewritten attributes
      (`settings`, under `nodes` and `scale`). */
  datatype Group = Group(hosts: seq<string>, nodes: seq<string>, scale: int, settings: map<string, string>)

  /** The group a new key starts from: no hosts and no nodes. Its `scale` is set
      as soon as the first host joins, before anything reads it. */
  const Fresh := Group([], [], 0, map[])

  /** `scale == |hosts| == |nodes|`, the shape every join leaves a group in. */
  predicate Balanced(g: Group) {
    g.scale == |g.hosts| && |g.hosts| == |g.nodes|
  }

  /** Host `name` (instance `iid`) joins group `k`, which is created when missing:
      the name is appended to the hosts, the id to the nodes, and `scale`
      becomes the number of hosts. Nothing is de-duplicated. */
  function AddHost(groups: map<string, Group>, k: string, name: string, iid: string): (r: map<string, Group>)
    ensures r.Keys == groups.Keys + {k}
    ensures forall j :: j in groups && j != k ==> r[j] == groups[j]
    ensures var g := if k in groups then groups[k] else Fresh;
      && r[k].hosts == g.hosts + [name] && r[k].nodes == g.nodes + [iid]
      && r[k].scale == |r[k].hosts| && r[k].settings == g.settings
  {
    var g := if k in groups then groups[k] else Fresh;
    groups[k := Group(g.hosts + [name], g.nodes + [iid], |g.hosts| + 1, g.settings)]
  }

  /** Joining keeps a group balanced, and a fresh group becomes balanced. */
  lemma AddHostBalanced(groups: map<string, Group>, k: string, name: string, iid: string)
    requires k in groups ==> Balanced(groups[k])
    ensures Balanced(AddHost(groups, k, name, iid)[k])
  {
  }

  /** The host joins each group of `ks` in turn. */
  function AddHosts(groups: map<string, Group>, ks: seq<string>, name: string, iid: string): map<string, Group>
    decreases |ks|
  {
    if ks == [] then groups
    else AddHost(AddHosts(groups, ks[..|ks| - 1], name, iid), ks[|ks| - 1], name, iid)
  }

  /** Joining one group is `AddHost`. */
  lemma AddHostsOne(groups: map<string, Group>, k: string, name: string, iid: string)
    ensures AddHosts(groups, [k], name, iid) == AddHost(groups, k, name, iid)
  {
    assert [k][..0] == [];
  }

  /** Group `g` after the host joined it `n` times. */
  function Joined(g: Group, name: string, iid: string, n: nat): Group {
    if n == 0 then g else Group(g.hosts + Repeat(name, n), g.nodes + Repeat(iid, n), |g.hosts| + n, g.settings)
  }

  lemma JoinedOnceMore(g: Group, name: string, iid: string, n: nat)
    ensures var h := Joined(g, name, iid, n);
      Joined(g, name, iid, n + 1) == Group(h.hosts + [name], h.nodes + [iid], |h.hosts| + 1, h.settings)
  {
    var h := Joined(g, name, iid, n);
    assert Repeat(name, n) + [name] == Repeat(name, n + 1);
    assert Repeat(iid, n) + [iid] == Repeat(iid, n + 1);
    if n == 0 {
      assert Repeat(name, 1) == [name] && Repeat(iid, 1) == [iid];
    } else {
      assert h.hosts + [name] == g.hosts + (Repeat(name, n) + [name]);
      assert h.nodes + [iid] == g.nodes + (Repeat(iid, n) + [iid]);
    }
  }

  /** Joining a list of groups creates exactly the groups it mentions. */
  lemma {:induction false} AddHostsKeys(groups: map<string, Group>, ks: seq<string>, name: string, iid: string, j: string)
    ensures j in AddHosts(groups, ks, name, iid) <==> j in groups || j in ks
    decreases |ks|
  {
    if ks != [] {
      var m := |ks| - 1;
      assert forall x :: x in ks <==> x in ks[..m] || x == ks[m];
      AddHostsKeys(groups, ks[..m], name, iid, j);
    }
  }

  /** Joining a list of groups: each group receives the host once per mention,
      so an unmentioned group is unchanged. */
  lemma {:induction false} AddHostsJoined(groups: map<string, Group>, ks: seq<string>, name: string, iid: string, j: string)
    requires j in AddHosts(groups, ks, name, iid)
    ensures AddHosts(groups, ks, name, iid)[j] == Joined(if j in groups then groups[j] else Fresh, name, iid, Occurrences(ks, j))
    decreases |ks|
  {
    if ks != [] {
      var m := |ks| - 1;
      var front := ks[..m];
      assert ks == front + [ks[m]];
      OccurrencesSnoc(front, ks[m], j);
      var p := AddHosts(groups, front, name, iid);
      assert AddHosts(groups, ks, name, iid) == AddHost(p, ks[m], name, iid);
      if ks[m] == j {
        var g := if j in groups then groups[j] else Fresh;
        AddHostsKeys(groups, front, name, iid, j);
        if j in p {
          AddHostsJoined(groups, front, name, iid, j);
        } else {
          assert Occurrences(front, j) == 0;
        }
        assert (if j in p then p[j] else Fresh) == Joined(g, name, iid, Occurrences(front, j));
        JoinedOnceMore(g, name, iid, Occurrences(front, j));
      } else {
        AddHostsJoined(groups, front, name, iid, j);
      }
    }
  }

  /** What joining `n` times does: `n` copies of the name and the id at the end
      of hosts and nodes, the settings kept, and `scale` the number of hosts. */
  lemma JoinedShape(g: Group, name: string, iid: string, n: nat)
    ensures var h := Joined(g, name, iid, n);
      && h.hosts == g.hosts + Repeat(name, n) && h.nodes == g.nodes + Repeat(iid, n) && h.settings == g.settings
      && (n > 0 ==> h.scale == |h.hosts|)
      && (Balanced(g) ==> Balanced(h))
  {
    if n == 0 {
      assert Repeat(name, 0) == [] && Repeat(iid, 0) == [];
      assert g.hosts + [] == g.hosts && g.nodes + [] == g.nodes;
    }
  }

  /** A group joined at least once holds the host and its id, and counts its hosts. */
  lemma JoinedHolds(g: Group, name: string, iid: string, n: nat)
    requires n > 0
    ensures var h := Joined(g, name, iid, n);
      name in h.hosts && iid in h.nodes && h.scale == |h.hosts|
  {
    var h := Joined(g, name, iid, n);
    assert h.hosts[|g.hosts|] == Repeat(name, n)[0];
    assert h.nodes[|g.nodes|] == Repeat(iid, n)[0];
  }

  /** Joining `ks1 + ks2` is joining `ks1` and then `ks2`. */
  lemma {:induction false} AddHostsConcat(groups: map<string, Group>, ks1: seq<string>, ks2: seq<string>, name: string, iid: string)
    ensures AddHosts(groups, ks1 + ks2, name, iid) == AddHosts(AddHosts(groups, ks1, name, iid), ks2, name, iid)
    decreases |ks2|
  {
    if ks2 == [] {
      assert ks1 + ks2 == ks1;
    } else {
      var m := |ks2| - 1;
      assert (ks1 + ks2)[..|ks1 + ks2| - 1] == ks1 + ks2[..m];
      AddHostsConcat(groups, ks1, ks2[..m], name, iid);
    }
  }

  /** `"a,b".split(',')`: a host whose `groups` attribute is `a,b` joins `a` and `b`. */
  lemma SplitTwoGroups()
    ensures Split("a,b", ',') == ["a", "b"]
  {
    assert IndexOf("a,b", ',') == 1;
    assert "a,b"[..1] == "a" && "a,b"[2..] == "b";
    assert ',' !in "b";
  }

  // ---------------------------------------------------------------------
  // Server groups (tofu/tofu.py:335-357)
  // ---------------------------------------------------------------------

  /** A dictionary built by assignment: values by key, and the keys in insertion order. */
  datatype Dict = Dict(keys: seq<string>, vals: map<string, string>)

  ghost predicate DictWF(d: Dict) {
    Distinct(d.keys) && forall k :: k in d.keys <==> k in d.vals
  }

  /** `d[k] = v`: a new key goes to the end, an existing key keeps its place. */
  function Put(d: Dict, k: string, v: string): (r: Dict)
    requires DictWF(d)
    ensures DictWF(r) && r.vals == d.vals[k := v]
    ensures k in d.vals ==> r.keys == d.keys
    ensures k !in d.vals ==> r.keys == d.keys + [k]
  {
    if k in d.vals then Dict(d.keys, d.vals[k := v]) else Dict(d.keys + [k], d.vals[k := v])
  }

  function Other(k: string): string -> bool {
    x => x != k
  }

  /** `del d[k]`. */
  function Delete(d: Dict, k: string): (r: Dict)
    requires DictWF(d)
    ensures DictWF(r) && r.vals == d.vals - {k}
  {
    FilterOrdered(d.keys, Other(k));
    Dict(Filter(d.keys, Other(k)), d.vals - {k})
  }

  /** For each attribute `y` of `ks`, in order, first `rename(y)` and then `y`
      itself receive the attribute's value. */
  function WrittenTwice(a: Attrs, ks: seq<string>, rename: string -> string): (d: Dict)
    requires forall y :: y in ks ==> y in a.vals
    ensures DictWF(d)
    decreases |ks|
  {
    if ks == [] then Dict([], map[])
    else
      var m := |ks| - 1;
      var y := ks[m];
      Put(Put(WrittenTwice(a, ks[..m], rename), rename(y), a.vals[y]), y, a.vals[y])
  }

  /** Every attribute of `ks` is written under both of its names. */
  lemma {:induction false} WrittenTwiceKeys(a: Attrs, ks: seq<string>, rename: string -> string)
    requires forall y :: y in ks ==> y in a.vals
    ensures forall y :: y in ks ==> y in WrittenTwice(a, ks, rename).vals && rename(y) in WrittenTwice(a, ks, rename).vals
    decreases |ks|
  {
    if ks != [] {
      var m := |ks| - 1;
      assert forall x :: x in ks <==> x in ks[..m] || x == ks[m];
      WrittenTwiceKeys(a, ks[..m], rename);
    }
  }

  /** Every written key holds the value of an attribute it is one of the names of. */
  lemma {:induction false} WrittenTwiceSource(a: Attrs, ks: seq<string>, rename: string -> string, k: string)
    requires forall y :: y in ks ==> y in a.vals
    requires k in WrittenTwice(a, ks, rename).vals
    ensures exists y :: y in ks && (k == y || k == rename(y)) && WrittenTwice(a, ks, rename).vals[k] == a.vals[y]
    decreases |ks|
  {
    var m := |ks| - 1;
    var y := ks[m];
    var front := ks[..m];
    var d := WrittenTwice(a, front, rename);
    assert WrittenTwice(a, ks, rename).vals == d.vals[rename(y) := a.vals[y]][y := a.vals[y]];
    if k == y || k == rename(y) {
      assert y in ks && WrittenTwice(a, ks, rename).vals[k] == a.vals[y];
    } else {
      WrittenTwiceSource(a, front, rename, k);
      var z :| z in front && (k == z || k == rename(z)) && d.vals[k] == a.vals[z];
      assert z in ks;
    }
  }

  /** The values `WrittenTwice` leaves, without the key order. */
  function WrittenVals(a: Attrs, ks: seq<string>, rename: string -> string): map<string, string>
    requires forall y :: y in ks ==> y in a.vals
    decreases |ks|
  {
    if ks == [] then map[]
    else
      var m := |ks| - 1;
      var y := ks[m];
      WrittenVals(a, ks[..m], rename)[rename(y) := a.vals[y]][y := a.vals[y]]
  }

  /** The written values are those of `WrittenVals`. */
  lemma {:induction false} WrittenTwiceVals(a: Attrs, ks: seq<string>, rename: string -> string)
    requires forall y :: y in ks ==> y in a.vals
    ensures WrittenTwice(a, ks, rename).vals == WrittenVals(a, ks, rename)
    decreases |ks|
  {
    if ks != [] {
      var m := |ks| - 1;
      assert forall z :: z in ks[..m] ==> z in ks;
      WrittenTwiceVals(a, ks[..m], rename);
    }
  }

  /** An attribute that no later attribute overwrites, under either name, keeps its value. */
  lemma {:induction false} WrittenValsLast(a: Attrs, ks: seq<string>, rename: string -> string, i: nat)
    requires forall y :: y in ks ==> y in a.vals
    requires i < |ks| && forall j :: i < j < |ks| ==> ks[j] != ks[i] && rename(ks[j]) != ks[i]
    ensures ks[i] in WrittenVals(a, ks, rename) && WrittenVals(a, ks, rename)[ks[i]] == a.vals[ks[i]]
    decreases |ks|
  {
    var m := |ks| - 1;
    if i < m {
      assert forall z :: z in ks[..m] ==> z in ks;
      WrittenValsLast(a, ks[..m], rename, i);
    }
  }

  /** The same for the written dictionary. */
  lemma WrittenTwiceLast(a: Attrs, ks: seq<string>, rename: string -> string, i: nat)
    requires forall y :: y in ks ==> y in a.vals
    requires i < |ks| && forall j :: i < j < |ks| ==> ks[j] != ks[i] && rename(ks[j]) != ks[i]
    ensures ks[i] in WrittenTwice(a, ks, rename).vals && WrittenTwice(a, ks, rename).vals[ks[i]] == a.vals[ks[i]]
  {
    WrittenTwiceVals(a, ks, rename);
    WrittenValsLast(a, ks, rename, i);
  }

  /** The server group's vars before `%` is removed: for each attribute `y`, in
      order, first the key with `value_specs.` removed and then `y` itself
      receive the attribute's value. */
  function SpecVars(a: Attrs, ks: seq<string>): (d: Dict)
    requires forall y :: y in ks ==> y in a.vals
    ensures DictWF(d)
  {
    WrittenTwice(a, ks, StripValueSpecs)
  }

  /** Every attribute is written under both names. */
  lemma SpecVarsWritten(a: Attrs, ks: seq<string>)
    requires forall y :: y in ks ==> y in a.vals
    ensures forall y :: y in ks ==> y in SpecVars(a, ks).vals && StripValueSpecs(y) in SpecVars(a, ks).vals
  {
    WrittenTwiceKeys(a, ks, StripValueSpecs);
  }

  /** Every key holds the value of an attribute written under it. */
  lemma SpecVarsSource(a: Attrs, ks: seq<string>, k: string)
    requires forall y :: y in ks ==> y in a.vals
    requires k in SpecVars(a, ks).vals
    ensures exists y :: y in ks && (k == y || k == StripValueSpecs(y)) && SpecVars(a, ks).vals[k] == a.vals[y]
  {
    WrittenTwiceSource(a, ks, StripValueSpecs, k);
  }

  /** The vars of a server group as the attribute loop leaves them, `%` removed. */
  function ServerGroupVars(a: Attrs): (d: Dict)
    requires AttrsWF(a)
    ensures DictWF(d) && "%" !in d.vals
  {
    Delete(SpecVars(a, a.keys), "%")
  }

  /** Both the original and the `value_specs.`-stripped name of every attribute
      are kept, except `%`; every key holds the value of an attribute written
      under it; and `%` is gone. */
  lemma ServerGroupVarsKeys(a: Attrs)
    requires AttrsWF(a)
    ensures var d := ServerGroupVars(a);
      && "%" !in d.vals
      && (forall y :: y in a.keys && y != "%" ==> y in d.vals)
      && (forall y :: y in a.keys && StripValueSpecs(y) != "%" ==> StripValueSpecs(y) in d.vals)
      && (forall k :: k in d.vals ==> exists y :: y in a.keys && (k == y || k == StripValueSpecs(y)) && d.vals[k] == a.vals[y])
  {
    SpecVarsWritten(a, a.keys);
    var d := ServerGroupVars(a);
    forall k | k in d.vals
      ensures exists y :: y in a.keys && (k == y || k == StripValueSpecs(y)) && d.vals[k] == a.vals[y]
    {
      SpecVarsSource(a, a.keys, k);
    }
  }

  /** The original key keeps its own value unless a later attribute is stripped
      onto it. */
  lemma SpecVarsLast(a: Attrs, ks: seq<string>, i: nat)
    requires forall y :: y in ks ==> y in a.vals
    requires i < |ks| && forall j :: i < j < |ks| ==> ks[j] != ks[i] && StripValueSpecs(ks[j]) != ks[i]
    ensures ks[i] in SpecVars(a, ks).vals && SpecVars(a, ks).vals[ks[i]] == a.vals[ks[i]]
  {
    WrittenTwiceLast(a, ks, StripValueSpecs, i);
  }

  /** An instance id resolves to an instance with a name (otherwise `get_instance`
      or the name lookup fails). */
  ghost predicate Resolves(tbl: Table, iid: string) {
    && WellFormed(tbl)
    && AllHave(tbl, Instances(tbl), "id")
    && (exists k :: k in Instances(tbl) && Attr(tbl, k, "id") == iid)
    && "name" in GetInstance(tbl, iid).primary.attributes.vals
  }

  /** The name of the first instance whose `id` is `iid`. */
  function InstanceName(tbl: Table, iid: string): (name: string)
    requires Resolves(tbl, iid)
    ensures exists i :: (FirstWith(tbl, Instances(tbl), "id", iid, i) && HasAttr(tbl, Instances(tbl)[i], "name")
      && name == Attr(tbl, Instances(tbl)[i], "name"))
  {
    GetInstance(tbl, iid).primary.attributes.vals["name"]
  }

  /** The member keys of a server group's vars, in order. */
  function MemberKeys(d: Dict): seq<string> {
    Filter(d.keys, IsMembersKey)
  }

  /** What rebuilding server group `x` reads without failing: its `name`, a
      decimal `members.#` and, for every member, a named instance of that id. */
  ghost predicate ServerGroupDefined(tbl: Table, x: string) {
    && WellFormed(tbl)
    && x in tbl.res
    && "name" in AttrsOf(tbl, x).vals
    && var d := ServerGroupVars(AttrsOf(tbl, x));
    && "members.#" in d.vals && IsDecimal(d.vals["members.#"])
    && forall k :: k in MemberKeys(d) ==> Resolves(tbl, d.vals[k])
  }

  /** `vars.nodes`: the values of the member keys, in order. */
  function MemberValues(d: Dict): (nodes: seq<string>)
    requires DictWF(d)
    ensures |nodes| == |MemberKeys(d)| && forall i :: 0 <= i < |nodes| ==> nodes[i] == d.vals[MemberKeys(d)[i]]
  {
    var ms := MemberKeys(d);
    seq(|ms|, i requires 0 <= i < |ms| => d.vals[ms[i]])
  }

  /** `hosts`: the name of the instance each node names, in order. */
  function MemberNames(tbl: Table, nodes: seq<string>): (hosts: seq<string>)
    requires forall i :: 0 <= i < |nodes| ==> Resolves(tbl, nodes[i])
    ensures |hosts| == |nodes| && forall i :: 0 <= i < |nodes| ==> hosts[i] == InstanceName(tbl, nodes[i])
  {
    seq(|nodes|, i requires 0 <= i < |nodes| => InstanceName(tbl, nodes[i]))
  }

  /** The group rebuilt from server group `x`. */
  function ServerGroup(tbl: Table, x: string): Group
    requires ServerGroupDefined(tbl, x)
  {
    var d := ServerGroupVars(AttrsOf(tbl, x));
    var nodes := MemberValues(d);
    Group(MemberNames(tbl, nodes), nodes, DecimalValue(d.vals["members.#"]), d.vals)
  }

  /** A server group's vars are its rewritten attributes, `nodes` the values of
      its member keys in order, `scale` the count `members.#`, and `hosts` the
      names of the instances the nodes name, one per node. */
  lemma ServerGroupShape(tbl: Table, x: string)
    requires ServerGroupDefined(tbl, x)
    ensures var d := ServerGroupVars(AttrsOf(tbl, x));
      var g := ServerGroup(tbl, x);
      && g.settings == d.vals
      && |g.nodes| == |MemberKeys(d)| && (forall i :: 0 <= i < |g.nodes| ==> g.nodes[i] == d.vals[MemberKeys(d)[i]])
      && g.scale == DecimalValue(d.vals["members.#"])
      && |g.hosts| == |g.nodes|
      && forall i :: 0 <= i < |g.hosts| ==> Resolves(tbl, g.nodes[i]) && g.hosts[i] == InstanceName(tbl, g.nodes[i])
  {
  }

  /** The member keys are the `members.<n>` keys, in insertion order, without
      the count `members.#`. */
  lemma MemberKeysSelected(d: Dict)
    requires DictWF(d)
    ensures forall n: nat :: "members." + NatToString(n) in d.keys ==> "members." + NatToString(n) in MemberKeys(d)
    ensures "members.#" !in MemberKeys(d)
    ensures InOrderOf(MemberKeys(d), d.keys)
  {
    forall n: nat | "members." + NatToString(n) in d.keys
      ensures "members." + NatToString(n) in MemberKeys(d)
    {
      MembersKeys(n);
    }
    MembersKeys(0);
    FilterOrdered(d.keys, IsMembersKey);
  }

  /** A `value_specs.<field>` attribute is kept under both names. */
  lemma ValueSpecsBothKept(a: Attrs, field: string)
    requires AttrsWF(a) && "value_specs." + field in a.keys && StripValueSpecs(field) != "%"
    ensures "value_specs." + field in ServerGroupVars(a).vals
    ensures StripValueSpecs(field) in ServerGroupVars(a).vals
  {
    ServerGroupVarsKeys(a);
    StripValueSpecsFragment(field);
    assert |"value_specs." + field| > 1;
  }

  function ServerGroupName(tbl: Table, x: string): string
    requires ServerGroupDefined(tbl, x)
  {
    AttrsOf(tbl, x).vals["name"]
  }

  /** The names of the server groups, in order. */
  function ServerGroupNames(tbl: Table, sgs: seq<string>): (r: seq<string>)
    requires forall x :: x in sgs ==> ServerGroupDefined(tbl, x)
    ensures |r| == |sgs| && forall i :: 0 <= i < |sgs| ==> r[i] == ServerGroupName(tbl, sgs[i])
  {
    seq(|sgs|, i requires 0 <= i < |sgs| => ServerGroupName(tbl, sgs[i]))
  }

  /** The rebuilt server groups, in order. */
  function Rebuilt(tbl: Table, sgs: seq<string>): (r: seq<Group>)
    requires forall x :: x in sgs ==> ServerGroupDefined(tbl, x)
    ensures |r| == |sgs| && forall i :: 0 <= i < |sgs| ==> r[i] == ServerGroup(tbl, sgs[i])
  {
    seq(|sgs|, i requires 0 <= i < |sgs| => ServerGroup(tbl, sgs[i]))
  }

  /** Every server group, in order, is rebuilt under its name, a later one
      replacing an earlier one of the same name. */
  function WithServerGroups(tbl: Table, groups: map<string, Group>, sgs: seq<string>): map<string, Group>
    requires forall x :: x in sgs ==> ServerGroupDefined(tbl, x)
  {
    Assign(groups, ServerGroupNames(tbl, sgs), Rebuilt(tbl, sgs))
  }

  /** Rebuilding the server groups one more: it lands under its name last. */
  lemma WithServerGroupsSnoc(tbl: Table, groups: map<string, Group>, sgs: seq<string>)
    requires forall x :: x in sgs ==> ServerGroupDefined(tbl, x)
    requires sgs != []
    ensures var n := |sgs| - 1;
      && (forall x :: x in sgs[..n] ==> ServerGroupDefined(tbl, x))
      && WithServerGroups(tbl, groups, sgs) ==
        WithServerGroups(tbl, groups, sgs[..n])[ServerGroupName(tbl, sgs[n]) := ServerGroup(tbl, sgs[n])]
  {
    var n := |sgs| - 1;
    assert forall x :: x in sgs[..n] ==> x in sgs;
    var names, gs := ServerGroupNames(tbl, sgs), Rebuilt(tbl, sgs);
    var names', gs' := ServerGroupNames(tbl, sgs[..n]), Rebuilt(tbl, sgs[..n]);
    forall i | 0 <= i < n ensures names[i] == names'[i] && gs[i] == gs'[i] {
      assert sgs[..n][i] == sgs[i];
    }
    assert names[..n] == names' && gs[..n] == gs';
    AssignSnoc(groups, names, gs);
  }

  /** The loop over the server groups after `j + 1` of them: the `j`-th lands last. */
  lemma WithServerGroupsStep(tbl: Table, groups: map<string, Group>, sgs: seq<string>, j: nat)
    requires forall x :: x in sgs ==> ServerGroupDefined(tbl, x)
    requires j < |sgs|
    ensures forall x :: x in sgs[..j] ==> ServerGroupDefined(tbl, x)
    ensures forall x :: x in sgs[..j + 1] ==> ServerGroupDefined(tbl, x)
    ensures WithServerGroups(tbl, groups, sgs[..j + 1]) ==
      WithServerGroups(tbl, groups, sgs[..j])[ServerGroupName(tbl, sgs[j]) := ServerGroup(tbl, sgs[j])]
  {
    assert forall y :: y in sgs[..j + 1] ==> y in sgs;
    assert forall y :: y in sgs[..j] ==> y in sgs;
    WithServerGroupsSnoc(tbl, groups, sgs[..j + 1]);
    assert sgs[..j + 1][..j] == sgs[..j] && sgs[..j + 1][j] == sgs[j];
  }

  /** No server group after `sgs[i]` has its name. */
  ghost predicate LastOfName(tbl: Table, sgs: seq<string>, i: nat)
    requires forall x :: x in sgs ==> ServerGroupDefined(tbl, x)
    requires i < |sgs|
  {
    forall j :: i < j < |sgs| ==> ServerGroupName(tbl, sgs[j]) != ServerGroupName(tbl, sgs[i])
  }

  /** Rebuilding adds exactly the server-group names, leaves the other groups
      alone, and puts under each name the last server group of that name. */
  lemma WithServerGroupsEffect(tbl: Table, groups: map<string, Group>, sgs: seq<string>)
    requires forall x :: x in sgs ==> ServerGroupDefined(tbl, x)
    ensures var r := WithServerGroups(tbl, groups, sgs);
      && (forall k :: k in r <==> k in groups || k in ServerGroupNames(tbl, sgs))
      && (forall k :: k in groups && k !in ServerGroupNames(tbl, sgs) ==> r[k] == groups[k])
      && (forall i :: 0 <= i < |sgs| && LastOfName(tbl, sgs, i) ==>
            ServerGroupName(tbl, sgs[i]) in r && r[ServerGroupName(tbl, sgs[i])] == ServerGroup(tbl, sgs[i]))
  {
    var names, gs := ServerGroupNames(tbl, sgs), Rebuilt(tbl, sgs);
    forall k ensures k in Assign(groups, names, gs) <==> k in groups || k in names {
      AssignKeys(groups, names, gs, k);
    }
    forall k | k in groups && k !in names ensures Assign(groups, names, gs)[k] == groups[k] {
      AssignOthers(groups, names, gs, k);
    }
    forall i | 0 <= i < |sgs| && LastOfName(tbl, sgs, i)
      ensures names[i] in Assign(groups, names, gs) && Assign(groups, names, gs)[names[i]] == gs[i]
    {
      AssignLast(groups, names, gs, i);
    }
  }

  /** `g` holds exactly the groups the server groups `sgs` name, each the one
      rebuilt from the last server group of its name. */
  ghost predicate OnlyServerGroups(tbl: Table, g: map<string, Group>, sgs: seq<string>)
    requires forall x :: x in sgs ==> ServerGroupDefined(tbl, x)
  {
    && (forall k :: k in g <==> k in ServerGroupNames(tbl, sgs))
    && (forall i :: 0 <= i < |sgs| && LastOfName(tbl, sgs, i) ==>
          ServerGroupName(tbl, sgs[i]) in g && g[ServerGroupName(tbl, sgs[i])] == ServerGroup(tbl, sgs[i]))
  }

  /** Rebuilding server groups over groups that are all server groups leaves
      only the server groups. */
  lemma WithServerGroupsOver(tbl: Table, groups: map<string, Group>, sgs: seq<string>)
    requires forall x :: x in sgs ==> ServerGroupDefined(tbl, x)
    requires forall k :: k in groups ==> k in ServerGroupNames(tbl, sgs)
    ensures OnlyServerGroups(tbl, WithServerGroups(tbl, groups, sgs), sgs)
  {
    WithServerGroupsEffect(tbl, groups, sgs);
  }
}
