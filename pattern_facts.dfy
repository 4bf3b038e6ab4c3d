/** What the engine's patterns do to the keys Terraform writes, and where they
    are looser than their authors needed: `network.1` also matches inside
    `network.10.name`, and `(all_)?metadata.` also catches `metadata.#`. */
module PatternFacts {
  import opened Util
  import opened Patterns

  /** `re.search` succeeds exactly when the pattern matches at some position. */
  lemma {:induction false} SearchAt(s: string, m: string -> bool)
    ensures Search(s, m) <==> exists i :: 0 <= i <= |s| && m(s[i..])
    decreases |s|
  {
    assert s[0..] == s;
    if s != [] {
      SearchAt(s[1..], m);
      if Search(s[1..], m) {
        var i :| 0 <= i <= |s[1..]| && m(s[1..][i..]);
        assert s[1..][i..] == s[i + 1..];
      }
      forall i | 1 <= i <= |s| && m(s[i..])
        ensures Search(s[1..], m)
      {
        assert s[1..][i - 1..] == s[i..];
      }
    }
  }

  /** `re.search(type, key)` with a literal type is substring containment. */
  lemma ContainsIsSubstring(key: string, t: string)
    ensures Contains(key, t) <==> exists i :: 0 <= i <= |key| && StartsWith(key[i..], t)
  {
    SearchAt(key, LiteralAt(t));
  }

  /** A pattern that begins with a literal cannot be found where the literal is absent. */
  lemma NoLiteralNoSearch(s: string, lit: string, m: string -> bool)
    requires forall t :: m(t) ==> StartsWith(t, lit)
    requires !Contains(s, lit)
    ensures !Search(s, m)
  {
    SearchAt(s, m);
    SearchAt(s, LiteralAt(lit));
  }

  /** Without a match anywhere, `re.sub` gives back its input. */
  lemma {:induction false} SubNoMatch(s: string, m: string -> nat)
    requires forall i :: 0 <= i < |s| ==> !(0 < m(s[i..]) <= |s| - i)
    ensures Sub(s, m) == s
    decreases |s|
  {
    if s != [] {
      assert s[0..] == s;
      forall i | 0 <= i < |s[1..]|
        ensures !(0 < m(s[1..][i..]) <= |s[1..]| - i)
      {
        assert s[1..][i..] == s[i + 1..];
      }
      SubNoMatch(s[1..], m);
    }
  }

  /** A pattern that begins with a literal leaves a key without that literal alone. */
  lemma NoLiteralNoSub(s: string, lit: string, m: string -> nat)
    requires forall t :: m(t) > 0 ==> StartsWith(t, lit)
    requires !Contains(s, lit)
    ensures Sub(s, m) == s
  {
    SearchAt(s, LiteralAt(lit));
    SubNoMatch(s, m);
  }

  /** A match at the front is removed and the scan resumes right after it. */
  lemma SubDropsMatch(p: string, rest: string, m: string -> nat)
    requires |p| > 0 && m(p + rest) == |p|
    ensures Sub(p + rest, m) == Sub(rest, m)
  {
    assert (p + rest)[|p|..] == rest;
  }

  lemma {:induction false} DigitRunOf(d: string, rest: string)
    requires forall i :: 0 <= i < |d| ==> IsDigit(d[i])
    requires rest == [] || !IsDigit(rest[0])
    ensures DigitRun(d + rest) == |d|
    decreases |d|
  {
    if d == [] {
      assert d + rest == rest;
    } else {
      assert (d + rest)[1..] == d[1..] + rest;
      DigitRunOf(d[1..], rest);
    }
  }

  /** `<lit>.<digits>.<rest>` starts with a match of `<lit>.\d+.` and of
      `<lit>.\d+\.` that ends with the second dot (`head` is `<lit>.`). */
  lemma IndexedLenOf(lit: string, head: string, d: string, rest: string)
    requires head == lit + "." && IsDecimal(d)
    ensures IndexedAnyLen(head + d + "." + rest, lit) == |head| + |d| + 1
    ensures IndexedDotLen(head + d + "." + rest, lit) == |head| + |d| + 1
  {
    var s := head + d + "." + rest;
    assert s[..|lit|] == lit;
    assert s[|lit|] == '.';
    assert s[|lit| + 1..] == d + ("." + rest);
    DigitRunOf(d, "." + rest);
    assert s[|lit| + 1] == d[0];
    assert s[|lit| + 1 + |d|] == '.';
  }

  lemma {:induction false} ShortNoSearch(s: string, m: string -> bool, n: nat)
    requires forall t :: |t| <= n ==> !m(t)
    requires |s| <= n
    ensures !Search(s, m)
    decreases |s|
  {
    if s != [] {
      ShortNoSearch(s[1..], m, n);
    }
  }

  /** Positions where the pattern cannot match may be skipped. */
  lemma {:induction false} SearchFrom(s: string, m: string -> bool, k: nat)
    requires k <= |s|
    requires forall i :: 0 <= i < k ==> !m(s[i..])
    ensures Search(s, m) <==> Search(s[k..], m)
    decreases k
  {
    if k > 0 {
      assert s[0..] == s;
      forall i | 0 <= i < k - 1
        ensures !m(s[1..][i..])
      {
        assert s[1..][i..] == s[i + 1..];
      }
      SearchFrom(s[1..], m, k - 1);
      assert s[1..][k - 1..] == s[k..];
    }
  }

  // --- get_volume: `attachment.\d+.` -----------------------------------

  /** A volume key `attachment.<n>.<field>` loses its `attachment.<n>.` part. */
  lemma StripAttachmentFragment(n: nat, rest: string)
    ensures StripAttachment("attachment." + NatToString(n) + "." + rest) == StripAttachment(rest)
  {
    var d := NatToString(n);
    var p := "attachment." + d + ".";
    IndexedLenOf("attachment", "attachment.", d, rest);
    assert "attachment." + d + "." + rest == p + rest;
    assert AttachmentLen(p + rest) == |p|;
    SubDropsMatch(p, rest, AttachmentLen);
  }

  /** Keys that do not mention `attachment` are kept as they are. */
  lemma StripAttachmentKeeps(key: string)
    requires !Contains(key, "attachment")
    ensures StripAttachment(key) == key
  {
    NoLiteralNoSub(key, "attachment", AttachmentLen);
  }

  /** Greedy digits give one back: `attachment.12` is removed whole, its last
      digit serving as the pattern's final `.`. */
  lemma StripAttachmentBacktracks()
    ensures StripAttachment("attachment.12") == ""
  {
    var s := "attachment.12";
    assert s[..10] == "attachment";
    assert s[11..] == "12";
    assert DigitRun("12") == 2 by {
      assert "12"[1..] == "2";
      assert "2"[1..] == "";
    }
    assert AttachmentLen(s) == 13;
    assert s[13..] == "";
  }

  // --- terraform_resources: `(attachment|rule).\d+\.` ------------------

  /** A security-group key `rule.<n>.<field>` loses its `rule.<n>.` part. */
  lemma StripRuleFragment(n: nat, rest: string)
    ensures StripAttachmentOrRule("rule." + NatToString(n) + "." + rest) == StripAttachmentOrRule(rest)
  {
    var d := NatToString(n);
    var p := "rule." + d + ".";
    var s := "rule." + d + "." + rest;
    IndexedLenOf("rule", "rule.", d, rest);
    assert s == p + rest;
    assert !StartsWith(s, "attachment") by {
      if |s| >= 10 {
        assert s[..10][0] == 'r';
      }
    }
    assert IndexedDotLen(s, "attachment") == 0;
    assert AttachmentOrRuleLen(p + rest) == |p|;
    SubDropsMatch(p, rest, AttachmentOrRuleLen);
  }

  /** A key `attachment.<n>.<field>` loses its `attachment.<n>.` part. */
  lemma StripAttachmentOrRuleFragment(n: nat, rest: string)
    ensures StripAttachmentOrRule("attachment." + NatToString(n) + "." + rest) == StripAttachmentOrRule(rest)
  {
    var d := NatToString(n);
    var p := "attachment." + d + ".";
    IndexedLenOf("attachment", "attachment.", d, rest);
    assert "attachment." + d + "." + rest == p + rest;
    assert AttachmentOrRuleLen(p + rest) == |p|;
    SubDropsMatch(p, rest, AttachmentOrRuleLen);
  }

  /** Keys that mention neither `attachment` nor `rule` are kept as they are. */
  lemma StripAttachmentOrRuleKeeps(key: string)
    requires !Contains(key, "attachment") && !Contains(key, "rule")
    ensures StripAttachmentOrRule(key) == key
  {
    SearchAt(key, LiteralAt("attachment"));
    SearchAt(key, LiteralAt("rule"));
    SubNoMatch(key, AttachmentOrRuleLen);
  }

  // --- terraform_inventory: network -----------------------------------

  /** `network.<i>.<field>` is selected for entry `i` and becomes `<field>`. */
  lemma NetworkFieldKey(i: nat, field: string)
    ensures IsNetworkKey("network." + NatToString(i) + "." + field, i)
    ensures StripNetwork("network." + NatToString(i) + "." + field, i) == StripNetwork(field, i)
  {
    var d := NatToString(i);
    var p := "network." + d + ".";
    var s := p + field;
    assert "network." + d + "." + field == s;
    assert s[..7] == "network" && s[7] == '.';
    assert s[8..][..|d|] == d;
    assert s[8 + |d|] == '.';
    assert NetworkAt(s, i);
    assert NetworkMatch(i)(s) == |p|;
    SubDropsMatch(p, field, NetworkMatch(i));
  }

  /** Field names that do not mention `network` come through unchanged. */
  lemma StripNetworkKeeps(key: string, i: nat)
    requires !Contains(key, "network")
    ensures !IsNetworkKey(key, i) && StripNetwork(key, i) == key
  {
    NoLiteralNoSearch(key, "network", NetworkStart(i));
    NoLiteralNoSub(key, "network", NetworkMatch(i));
  }

  /** The looseness of `network.%s`: the pattern for entry 1 also selects the
      key `network.10.name` of entry 10, which lands in entry 1 as `.name`. */
  lemma NetworkOneMatchesTen()
    ensures IsNetworkKey("network.10.name", 1)
    ensures StripNetwork("network.10.name", 1) == ".name"
  {
    var s := "network.10.name";
    assert NatToString(1) == "1";
    assert s[..7] == "network";
    assert s[8..][..1] == "1";
    assert NetworkAt(s, 1);
    assert NetworkMatch(1)(s) == 10;
    assert s[10..] == ".name";
    assert StripNetwork(".name", 1) == ".name" by {
      ShortNoSearch(".name", LiteralAt("network"), 6);
      StripNetworkKeeps(".name", 1);
    }
  }

  // --- terraform_inventory: scheduler_hints, security_groups, metadata --

  /** `scheduler_hints.<n>.<field>` is selected and becomes `<field>`. */
  lemma SchedulerHintFieldKey(n: nat, field: string)
    ensures IsSchedulerHintKey("scheduler_hints." + NatToString(n) + "." + field)
    ensures StripSchedulerHint("scheduler_hints." + NatToString(n) + "." + field) == StripSchedulerHint(field)
  {
    var d := NatToString(n);
    var p := "scheduler_hints." + d + ".";
    IndexedLenOf("scheduler_hints", "scheduler_hints.", d, field);
    assert "scheduler_hints." + d + "." + field == p + field;
    assert SchedulerHintLen(p + field) == |p|;
    SubDropsMatch(p, field, SchedulerHintLen);
  }

  /** `security_groups.<n>` is a member key; the count key `security_groups.#` is not. */
  lemma SecurityGroupKeys(n: nat)
    ensures IsSecurityGroupKey("security_groups." + NatToString(n))
    ensures !IsSecurityGroupKey("security_groups.#")
  {
    var d := NatToString(n);
    var s := "security_groups." + d;
    assert s[..15] == "security_groups" && s[15] == '.' && s[16] == d[0];
    assert SecurityGroupAt(s);
    var c := "security_groups.#";
    assert !SecurityGroupAt(c) by {
      assert c[16] == '#';
    }
    ShortNoSearch(c[1..], SecurityGroupAt, 16);
  }

  /** `members.<n>` is a member key; the count key `members.#` is not. */
  lemma MembersKeys(n: nat)
    ensures IsMembersKey("members." + NatToString(n))
    ensures !IsMembersKey("members.#")
  {
    var d := NatToString(n);
    var s := "members." + d;
    assert s[..7] == "members" && s[7] == '.' && s[8] == d[0];
    assert MembersAt(s);
    var c := "members.#";
    assert !MembersAt(c) by {
      assert c[8] == '#';
    }
    ShortNoSearch(c[1..], MembersAt, 8);
  }

  /** `metadata.<field>` is a metadata key when the field does not start with
      `%`, and it becomes `<field>`. */
  lemma MetadataPrefixKey(field: string)
    requires |field| > 0 && field[0] != '%'
    ensures MetadataAt("metadata." + field) && !LitAny("metadata." + field, "all_metadata")
    ensures IsMetadataKey("metadata." + field)
    ensures StripMetadata("metadata." + field) == StripMetadata(field)
  {
    var s := "metadata." + field;
    assert s[..8] == "metadata" && s[8] == '.' && s[9] == field[0];
    assert MetadataAt(s);
    assert !LitAny(s, "all_metadata") by {
      if |s| >= 12 {
        assert s[..12][0] == 'm';
      }
    }
    assert MetadataLen(s) == 9;
    SubDropsMatch("metadata.", field, MetadataLen);
  }

  /** `all_metadata.<field>` is a metadata key when the field does not start
      with `%`, and it becomes `<field>`. */
  lemma AllMetadataPrefixKey(field: string)
    requires |field| > 0 && field[0] != '%'
    ensures IsMetadataKey("all_metadata." + field)
    ensures StripMetadata("all_metadata." + field) == StripMetadata(field)
  {
    var s := "metadata." + field;
    MetadataPrefixKey(field);
    var a := "all_metadata." + field;
    assert a == "all_" + s;
    assert a[4..] == s;
    SearchAt(a, MetadataAt);
    assert a[..12] == "all_metadata" && a[12] == '.';
    assert MetadataLen(a) == 13;
    SubDropsMatch("all_metadata.", field, MetadataLen);
  }

  /** `metadata.<field>` and `all_metadata.<field>` are metadata keys when the
      field does not start with `%`, and both become `<field>`. */
  lemma MetadataFieldKey(field: string)
    requires |field| > 0 && field[0] != '%'
    ensures IsMetadataKey("metadata." + field) && IsMetadataKey("all_metadata." + field)
    ensures StripMetadata("metadata." + field) == StripMetadata(field)
    ensures StripMetadata("all_metadata." + field) == StripMetadata(field)
  {
    MetadataPrefixKey(field);
    AllMetadataPrefixKey(field);
  }

  /** Keys that do not mention `metadata` are kept as they are (a match of
      `all_metadata.` contains `metadata` too). */
  lemma StripMetadataKeeps(key: string)
    requires !Contains(key, "metadata")
    ensures StripMetadata(key) == key
  {
    SearchAt(key, LiteralAt("metadata"));
    forall i | 0 <= i < |key|
      ensures !(0 < MetadataLen(key[i..]) <= |key| - i)
    {
      assert !LiteralAt("metadata")(key[i..]);
      if i + 12 <= |key| {
        assert !LiteralAt("metadata")(key[i + 4..]);
        assert key[i + 4..][..8] == key[i..][4..12];
      }
    }
    SubNoMatch(key, MetadataLen);
  }

  /** The count key `metadata.%` of the metadata map is not a metadata key. */
  lemma MetadataCountKey()
    ensures !IsMetadataKey("metadata.%")
  {
    var s := "metadata.%";
    assert !MetadataAt(s) by {
      assert s[9] == '%';
    }
    ShortNoSearch(s[1..], MetadataAt, 9);
  }

  /** Nor is the count key `all_metadata.%`. */
  lemma AllMetadataCountKey(key: string)
    requires key == "all_" + "metadata.%"
    ensures !IsMetadataKey(key)
  {
    MetadataCountKey();
    forall i | 0 <= i < 4
      ensures !MetadataAt(key[i..])
    {
      assert key[i..][0] != 'm';
    }
    SearchFrom(key, MetadataAt, 4);
    assert key[4..] == "metadata.%";
  }

  /** The metadata pattern is looser than the map's layout: it also selects the
      count key `metadata.#` of a list, which lands in the metadata map as `#`. */
  lemma MetadataPatternTakesListCount(key: string)
    requires key == "metadata.#"
    ensures IsMetadataKey(key) && StripMetadata(key) == "#"
  {
    MetadataFieldKey("#");
    assert key == "metadata." + "#";
    SubNoMatch("#", MetadataLen);
  }

  // --- server groups: `value_specs.` ------------------------------------

  /** `value_specs.<field>` becomes `<field>`. */
  lemma StripValueSpecsFragment(field: string)
    ensures StripValueSpecs("value_specs." + field) == StripValueSpecs(field)
  {
    var s := "value_specs." + field;
    assert s[..11] == "value_specs" && s[11] == '.';
    SubDropsMatch("value_specs.", field, ValueSpecsLen);
  }

  /** Keys that do not mention `value_specs` are kept as they are. */
  lemma StripValueSpecsKeeps(key: string)
    requires !Contains(key, "value_specs")
    ensures StripValueSpecs(key) == key
  {
    NoLiteralNoSub(key, "value_specs", ValueSpecsLen);
  }
}
