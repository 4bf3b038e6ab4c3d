/** Resource lookup by type and the cross references between resources:
    instance -> floating-IP association -> floating IP, and
    instance -> volume attachment -> volume (tofu/tofu.py:70-193). */
module Lookup {
  import opened Util
  import opened Patterns
  import opened State
  import opened PatternFacts

  const INSTANCE_TYPE := "openstack_compute_instance_v2"
  const FLOATING_IP_TYPE := "openstack_networking_floatingip_v2"
  const FLOATING_IP_ASSOCIATE_TYPE := "openstack_compute_floatingip_associate_v2"
  const VOLUME_TYPE := "openstack_blockstorage_volume_v2"
  const VOLUME_ATTACH_TYPE := "openstack_compute_volume_attach_v2"
  const SERVER_GROUP_TYPE := "openstack_compute_servergroup_v2"

  function OfType(t: string): string -> bool {
    k => Contains(k, t)
  }

  /** `get_resources(type)`: the table keys in which the type name occurs
      anywhere (a substring test, not an exact type match), in table order. */
  function GetResources(tbl: Table, t: string): (r: seq<string>)
    requires WellFormed(tbl)
    ensures forall k :: k in r <==> k in tbl.keys && Contains(k, t)
    ensures Distinct(r)
  {
    FilterOrdered(tbl.keys, OfType(t));
    Filter(tbl.keys, OfType(t))
  }

  /** `get_resources` keeps the table's key order. */
  lemma GetResourcesOrdered(tbl: Table, t: string)
    requires WellFormed(tbl)
    ensures InOrderOf(GetResources(tbl, t), tbl.keys)
  {
    FilterOrdered(tbl.keys, OfType(t));
  }

  function Instances(tbl: Table): seq<string>
    requires WellFormed(tbl)
  {
    GetResources(tbl, INSTANCE_TYPE)
  }

  function FloatingIps(tbl: Table): seq<string>
    requires WellFormed(tbl)
  {
    GetResources(tbl, FLOATING_IP_TYPE)
  }

  function FloatingIpAssociates(tbl: Table): seq<string>
    requires WellFormed(tbl)
  {
    GetResources(tbl, FLOATING_IP_ASSOCIATE_TYPE)
  }

  function Volumes(tbl: Table): seq<string>
    requires WellFormed(tbl)
  {
    GetResources(tbl, VOLUME_TYPE)
  }

  function VolumeAttaches(tbl: Table): seq<string>
    requires WellFormed(tbl)
  {
    GetResources(tbl, VOLUME_ATTACH_TYPE)
  }

  function ServerGroups(tbl: Table): seq<string>
    requires WellFormed(tbl)
  {
    GetResources(tbl, SERVER_GROUP_TYPE)
  }

  function AttrEquals(tbl: Table, a: string, v: string): string -> bool {
    k => AttrIs(tbl, k, a, v)
  }

  /** The keys of `ks` whose resource has attribute `a` equal to `v`, in order. */
  function Matching(tbl: Table, ks: seq<string>, a: string, v: string): (r: seq<string>)
    requires Distinct(ks)
    ensures forall k :: k in r <==> k in ks && AttrIs(tbl, k, a, v)
    ensures Distinct(r)
    ensures InOrderOf(r, ks)
  {
    FilterOrdered(ks, AttrEquals(tbl, a, v));
    Filter(ks, AttrEquals(tbl, a, v))
  }

  /** `ks[i]` is the first key of `ks` whose attribute `a` equals `v`. */
  predicate FirstWith(tbl: Table, ks: seq<string>, a: string, v: string, i: int) {
    && 0 <= i < |ks|
    && AttrIs(tbl, ks[i], a, v)
    && forall j :: 0 <= j < i ==> !AttrIs(tbl, ks[j], a, v)
  }

  /** `filter(...)[0]` is the first match, and the filter is empty exactly when nothing matches. */
  lemma FirstMatch(tbl: Table, ks: seq<string>, a: string, v: string)
    requires Distinct(ks)
    ensures Matching(tbl, ks, a, v) == [] <==> forall k :: k in ks ==> !AttrIs(tbl, k, a, v)
    ensures Matching(tbl, ks, a, v) != [] ==>
      exists i :: FirstWith(tbl, ks, a, v, i) && ks[i] == Matching(tbl, ks, a, v)[0]
  {
    FilterHead(ks, AttrEquals(tbl, a, v));
  }

  /** `get_floating_ip(ip)`: the attributes of the first floating IP whose
      `address` is `ip`, or None. Every floating IP must carry an `address`,
      since the filter reads it on each of them. */
  function GetFloatingIp(tbl: Table, ip: string): (r: Option<Attrs>)
    requires WellFormed(tbl) && AllHave(tbl, FloatingIps(tbl), "address")
    ensures r.None? <==> forall k :: k in FloatingIps(tbl) ==> Attr(tbl, k, "address") != ip
    ensures r.Some? ==>
      exists i :: FirstWith(tbl, FloatingIps(tbl), "address", ip, i) && r.value == AttrsOf(tbl, FloatingIps(tbl)[i])
  {
    var fip := Matching(tbl, FloatingIps(tbl), "address", ip);
    FirstMatch(tbl, FloatingIps(tbl), "address", ip);
    if fip != [] then Some(AttrsOf(tbl, fip[0])) else None
  }

  /** `get_instance(id)`: the first instance whose `id` attribute is `iid`;
      the source fails with an IndexError when there is none. */
  function GetInstance(tbl: Table, iid: string): (r: Resource)
    requires WellFormed(tbl) && AllHave(tbl, Instances(tbl), "id")
    requires exists k :: k in Instances(tbl) && Attr(tbl, k, "id") == iid
    ensures exists i :: FirstWith(tbl, Instances(tbl), "id", iid, i) && r == tbl.res[Instances(tbl)[i]]
  {
    var ins := Matching(tbl, Instances(tbl), "id", iid);
    FirstMatch(tbl, Instances(tbl), "id", iid);
    tbl.res[ins[0]]
  }

  /** The floating-IP associations of instance `iid`, in table order. */
  function Associations(tbl: Table, iid: string): seq<string>
    requires WellFormed(tbl)
  {
    Matching(tbl, FloatingIpAssociates(tbl), "instance_id", iid)
  }

  /** The associations and the attachments of an instance come in table order,
      and so do the `floating_ips` and `volumes` lists built from them. */
  lemma LinksOrdered(tbl: Table, iid: string)
    requires WellFormed(tbl)
    ensures InOrderOf(Associations(tbl, iid), tbl.keys)
    ensures InOrderOf(Attachments(tbl, iid), tbl.keys)
  {
    GetResourcesOrdered(tbl, FLOATING_IP_ASSOCIATE_TYPE);
    GetResourcesOrdered(tbl, VOLUME_ATTACH_TYPE);
    var fa, va := FloatingIpAssociates(tbl), VolumeAttaches(tbl);
    var xs, ys := Associations(tbl, iid), Attachments(tbl, iid);
    assert forall i :: 0 <= i < |xs| ==> xs[i] in fa;
    assert forall i :: 0 <= i < |ys| ==> ys[i] in va;
    InOrderTrans(xs, fa, tbl.keys);
    InOrderTrans(ys, va, tbl.keys);
  }

  /** What `get_floating_ip_associations(iid)` reads without failing: `instance_id`
      on every association, `floating_ip` on the matching ones and, as soon as
      one matches, `address` on every floating IP. */
  ghost predicate AssociationsDefined(tbl: Table, iid: string) {
    && WellFormed(tbl)
    && AllHave(tbl, FloatingIpAssociates(tbl), "instance_id")
    && AllHave(tbl, Associations(tbl, iid), "floating_ip")
    && (Associations(tbl, iid) != [] ==> AllHave(tbl, FloatingIps(tbl), "address"))
  }

  /** `get_floating_ip_associations(iid)`: one entry per association of the
      instance, in order, each the floating IP its `floating_ip` resolves to
      (or None); no association gives the empty list. */
  function GetFloatingIpAssociations(tbl: Table, iid: string): (r: seq<Option<Attrs>>)
    requires AssociationsDefined(tbl, iid)
    ensures |r| == |Associations(tbl, iid)|
    ensures forall i :: 0 <= i < |r| ==>
      r[i] == GetFloatingIp(tbl, Attr(tbl, Associations(tbl, iid)[i], "floating_ip"))
  {
    var xs := Associations(tbl, iid);
    seq(|xs|, i requires 0 <= i < |xs| => GetFloatingIp(tbl, Attr(tbl, xs[i], "floating_ip")))
  }

  function KeepAll(k: string): bool {
    true
  }

  /** The volume's attributes with every `attachment<any char><digits><any char>`
      fragment removed from the keys, later keys winning when two are rewritten alike. */
  function VolumeAttrs(a: Attrs): (r: map<string, string>)
    requires AttrsWF(a)
    ensures forall k :: k in r <==> exists y :: y in a.keys && StripAttachment(y) == k
  {
    Rekeyed(a.keys, a.vals, KeepAll, StripAttachment)
  }

  /** The specification of `get_volume(volid)`: None when no volume has `id`
      `volid`, otherwise the first such volume's attributes rewritten by `VolumeAttrs`. */
  function Volume(tbl: Table, volid: string): (r: Option<map<string, string>>)
    requires WellFormed(tbl) && AllHave(tbl, Volumes(tbl), "id")
    ensures r.None? <==> forall k :: k in Volumes(tbl) ==> Attr(tbl, k, "id") != volid
    ensures r.Some? ==>
      exists i :: FirstWith(tbl, Volumes(tbl), "id", volid, i) && r.value == VolumeAttrs(AttrsOf(tbl, Volumes(tbl)[i]))
  {
    var vid := Matching(tbl, Volumes(tbl), "id", volid);
    FirstMatch(tbl, Volumes(tbl), "id", volid);
    if vid != [] then Some(VolumeAttrs(AttrsOf(tbl, vid[0]))) else None
  }

  /** A volume key `attachment.<n>.<field>` gives its value to `<field>`, and a key
      without `attachment` keeps key and value, unless a later key is rewritten
      to the same name. */
  lemma VolumeAttrsFields(a: Attrs, i: nat)
    requires AttrsWF(a) && i < |a.keys|
    requires forall j :: i < j < |a.keys| ==> StripAttachment(a.keys[j]) != StripAttachment(a.keys[i])
    ensures StripAttachment(a.keys[i]) in VolumeAttrs(a)
    ensures VolumeAttrs(a)[StripAttachment(a.keys[i])] == a.vals[a.keys[i]]
    ensures forall n: nat, field :: a.keys[i] == "attachment." + NatToString(n) + "." + field ==>
      StripAttachment(a.keys[i]) == StripAttachment(field)
    ensures !Contains(a.keys[i], "attachment") ==> StripAttachment(a.keys[i]) == a.keys[i]
  {
    RekeyedLast(a.keys, a.vals, KeepAll, StripAttachment, i);
    forall n: nat, field | a.keys[i] == "attachment." + NatToString(n) + "." + field
      ensures StripAttachment(a.keys[i]) == StripAttachment(field)
    {
      StripAttachmentFragment(n, field);
    }
    if !Contains(a.keys[i], "attachment") {
      StripAttachmentKeeps(a.keys[i]);
    }
  }

  /** The volume attachments of instance `iid`, in table order. */
  function Attachments(tbl: Table, iid: string): seq<string>
    requires WellFormed(tbl)
  {
    Matching(tbl, VolumeAttaches(tbl), "instance_id", iid)
  }

  /** What `get_volume_attachments(iid)` reads without failing. */
  ghost predicate AttachmentsDefined(tbl: Table, iid: string) {
    && WellFormed(tbl)
    && AllHave(tbl, VolumeAttaches(tbl), "instance_id")
    && AllHave(tbl, Attachments(tbl, iid), "volume_id")
    && (Attachments(tbl, iid) != [] ==> AllHave(tbl, Volumes(tbl), "id"))
  }

  /** `get_volume_attachments(iid)`: one `get_volume` result per attachment of
      the instance, in order. */
  function GetVolumeAttachments(tbl: Table, iid: string): (r: seq<Option<map<string, string>>>)
    requires AttachmentsDefined(tbl, iid)
    ensures |r| == |Attachments(tbl, iid)|
    ensures forall i :: 0 <= i < |r| ==> r[i] == Volume(tbl, Attr(tbl, Attachments(tbl, iid)[i], "volume_id"))
  {
    var xs := Attachments(tbl, iid);
    seq(|xs|, i requires 0 <= i < |xs| => Volume(tbl, Attr(tbl, xs[i], "volume_id")))
  }
}
