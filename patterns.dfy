/** The regular expressions of the inventory engine, each written out as a
    string predicate (for `re.search`) or a match-length function (for
    `re.sub(pattern, '', key)`), with Python's semantics: `.` is any character
    but a newline, `\d` an ASCII digit, `\d+` greedy with backtracking, and a
    pattern may match anywhere in the key. */
module Patterns {
  import opened Util

  /** Python's `.` outside DOTALL mode. */
  predicate AnyChar(c: char) {
    c != '\n'
  }

  predicate StartsWith(s: string, p: string) {
    |p| <= |s| && s[..|p|] == p
  }

  /** `re.search(pattern, s)`, where `atStart(t)` says whether the pattern
      matches at the beginning of `t`: some suffix of `s` begins with a match. */
  predicate Search(s: string, atStart: string -> bool)
    decreases |s|
  {
    atStart(s) || (s != [] && Search(s[1..], atStart))
  }

  /** `re.sub(pattern, '', s)`, where `matchLen(t)` is the length of the match
      at the beginning of `t` (0 when there is none): scanning left to right,
      every non-overlapping match is removed and the text is not rescanned. */
  function Sub(s: string, matchLen: string -> nat): (r: string)
    ensures |r| <= |s|
    decreases |s|
  {
    if s == [] then []
    else
      var n := matchLen(s);
      if 0 < n <= |s| then Sub(s[n..], matchLen) else [s[0]] + Sub(s[1..], matchLen)
  }

  /** `<lit>.`: the literal and one more character that is not a newline. */
  predicate LitAny(s: string, lit: string) {
    |s| > |lit| && StartsWith(s, lit) && AnyChar(s[|lit|])
  }

  /** The pattern `<lit>.\d+` matches at the start (a single digit is enough). */
  predicate IndexedAt(s: string, lit: string) {
    LitAny(s, lit) && |s| > |lit| + 1 && IsDigit(s[|lit| + 1])
  }

  /** Length of the run of digits that `s` starts with. */
  function DigitRun(s: string): (n: nat)
    ensures n <= |s|
    ensures forall i :: 0 <= i < n ==> IsDigit(s[i])
    ensures n < |s| ==> !IsDigit(s[n])
    decreases |s|
  {
    if s != [] && IsDigit(s[0]) then 1 + DigitRun(s[1..]) else 0
  }

  /** Length of the match of `<lit>.\d+.` at the start of `s`: `\d+` takes all
      the digits and gives one back when no character is left for the final `.`. */
  function IndexedAnyLen(s: string, lit: string): (n: nat)
    ensures n <= |s|
    ensures n > 0 ==> IndexedAt(s, lit)
  {
    if !IndexedAt(s, lit) then 0
    else
      var p := |lit| + 1;
      var d := DigitRun(s[p..]);
      if p + d < |s| && AnyChar(s[p + d]) then p + d + 1
      else if d >= 2 then p + d
      else 0
  }

  /** Length of the match of `<lit>.\d+\.` at the start of `s` (backtracking into
      the digits cannot help, since a digit is not a `.`). */
  function IndexedDotLen(s: string, lit: string): (n: nat)
    ensures n <= |s|
    ensures n > 0 ==> IndexedAt(s, lit)
  {
    if !IndexedAt(s, lit) then 0
    else
      var p := |lit| + 1;
      var d := DigitRun(s[p..]);
      if p + d < |s| && s[p + d] == '.' then p + d + 1 else 0
  }

  // ---------------------------------------------------------------------
  // The engine's patterns (tofu/tofu.py)
  // ---------------------------------------------------------------------

  /** `re.search(type, key)` for a resource type name, which holds no regex metacharacter. */
  predicate Contains(key: string, t: string) {
    Search(key, LiteralAt(t))
  }

  function LiteralAt(t: string): string -> bool {
    s => StartsWith(s, t)
  }

  /** `metadata.[^%]` at the start (`[^%]` does match a newline). */
  predicate MetadataAt(s: string) {
    LitAny(s, "metadata") && |s| > 9 && s[9] != '%'
  }

  /** Whether `metadata.[^%]` matches somewhere in the key. */
  predicate IsMetadataKey(key: string) {
    Search(key, MetadataAt)
  }

  /** Match length of `(all_)?metadata.`: the optional group is tried first. */
  function MetadataLen(s: string): nat {
    if LitAny(s, "all_metadata") then 13 else if LitAny(s, "metadata") then 9 else 0
  }

  /** The key with every match of `(all_)?metadata.` removed. */
  function StripMetadata(key: string): string {
    Sub(key, MetadataLen)
  }

  /** `network.<i>` at the start, `<i>` written as Python's `'%s' % i`. */
  predicate NetworkAt(s: string, i: nat) {
    LitAny(s, "network") && StartsWith(s[8..], NatToString(i))
  }

  function NetworkStart(i: nat): string -> bool {
    s => NetworkAt(s, i)
  }

  /** Whether `network.<i>` matches somewhere in the key. */
  predicate IsNetworkKey(key: string, i: nat) {
    Search(key, NetworkStart(i))
  }

  /** Match length of `network.<i>.` at the start. */
  function NetworkLen(s: string, i: nat): nat {
    var d := NatToString(i);
    if NetworkAt(s, i) && |s| > 8 + |d| && AnyChar(s[8 + |d|]) then 9 + |d| else 0
  }

  function NetworkMatch(i: nat): string -> nat {
    s => NetworkLen(s, i)
  }

  /** The key with every match of `network.<i>.` removed. */
  function StripNetwork(key: string, i: nat): string {
    Sub(key, NetworkMatch(i))
  }

  predicate SchedulerHintAt(s: string) {
    IndexedAt(s, "scheduler_hints")
  }

  /** Whether `scheduler_hints.\d+` matches somewhere in the key. */
  predicate IsSchedulerHintKey(key: string) {
    Search(key, SchedulerHintAt)
  }

  function SchedulerHintLen(s: string): nat {
    IndexedAnyLen(s, "scheduler_hints")
  }

  /** The key with every match of `scheduler_hints.\d+.` removed. */
  function StripSchedulerHint(key: string): string {
    Sub(key, SchedulerHintLen)
  }

  predicate SecurityGroupAt(s: string) {
    IndexedAt(s, "security_groups")
  }

  /** Whether `security_groups.\d+` matches somewhere in the key. */
  predicate IsSecurityGroupKey(key: string) {
    Search(key, SecurityGroupAt)
  }

  predicate MembersAt(s: string) {
    IndexedAt(s, "members")
  }

  /** Whether `members.\d+` matches somewhere in the key. */
  predicate IsMembersKey(key: string) {
    Search(key, MembersAt)
  }

  function AttachmentLen(s: string): nat {
    IndexedAnyLen(s, "attachment")
  }

  /** The key with every match of `attachment.\d+.` removed. */
  function StripAttachment(key: string): string {
    Sub(key, AttachmentLen)
  }

  /** Match length of `(attachment|rule).\d+\.`: the alternatives are tried in order. */
  function AttachmentOrRuleLen(s: string): nat {
    if IndexedDotLen(s, "attachment") > 0 then IndexedDotLen(s, "attachment") else IndexedDotLen(s, "rule")
  }

  /** The key with every match of `(attachment|rule).\d+\.` removed. */
  function StripAttachmentOrRule(key: string): string {
    Sub(key, AttachmentOrRuleLen)
  }

  /** Match length of `value_specs.` at the start. */
  function ValueSpecsLen(s: string): nat {
    if LitAny(s, "value_specs") then 12 else 0
  }

  /** The key with every match of `value_specs.` removed. */
  function StripValueSpecs(key: string): string {
    Sub(key, ValueSpecsLen)
  }
}
