/** internal/secrets/identifier.go and internal/account/tenant/naming.go: secret
    identifiers, resolved account names, and the length budget that ties them. */
module Identifiers {
  import opened Common
  import opened Text
  import Quoting

  // ---- identifier.go ----------------------------------------------------------

  const MAX_IDENTIFIER_LEN := 127

  predicate IsSeparator(c: char) { c == '-' || c == '_' }

  predicate ValidSegment(value: string) {
    && value != ""
    && IsAlnum(value[0])
    && (forall i :: 0 <= i < |value| ==> IsAlnum(value[i]) || IsSeparator(value[i]))
    && (forall i, j :: 0 <= i < |value| && j == i + 1 && j < |value| ==>
      !(IsSeparator(value[i]) && IsSeparator(value[j])))
  }

  function ToSecretSafe(s: string): string { ReplaceChar(s, '_', "-") }

  function CheckLen(value: string): Result<string> {
    if |value| > MAX_IDENTIFIER_LEN then Err(SystemError) else Ok(value)
  }

  function NewTenantIdentifier(org: string, namespace: string, accountName: string): Result<string> {
    if !ValidSegment(org) || !ValidSegment(namespace) || !ValidSegment(accountName) then Err(UserError)
    else CheckLen("yk-" + ToSecretSafe(org) + "--" + ToSecretSafe(namespace) + "--" + ToSecretSafe(accountName))
  }

  function NewOrgAdminIdentifier(org: string, orgAdminAccount: string): Result<string> {
    if !ValidSegment(org) || !ValidSegment(orgAdminAccount) then Err(UserError)
    else CheckLen("yk-orgadmin--" + ToSecretSafe(org) + "--" + ToSecretSafe(orgAdminAccount))
  }

  // ---- what a segment is, letter by letter -----------------------------------------

  /** A reader of one segment: at the start, after a letter or digit, after a separator. */
  datatype Reading = AtStart | InWord | AfterSeparator

  predicate WordChar(c: char) { 'A' <= c <= 'Z' || 'a' <= c <= 'z' || '0' <= c <= '9' }

  /** Letters and digits, with single dashes and underscores between and after them. */
  predicate Reads(s: string, r: Reading) {
    if s == "" then !r.AtStart?
    else if WordChar(s[0]) then Reads(s[1..], InWord)
    else r.InWord? && (s[0] == '-' || s[0] == '_') && Reads(s[1..], AfterSeparator)
  }

  predicate Segment(s: string) { Reads(s, AtStart) }

  /** The part of ValidSegment that does not depend on where the text starts. */
  predicate WellSpaced(s: string) {
    && (forall i :: 0 <= i < |s| ==> IsAlnum(s[i]) || IsSeparator(s[i]))
    && (forall i, j :: 0 <= i < |s| && j == i + 1 && j < |s| ==> !(IsSeparator(s[i]) && IsSeparator(s[j])))
  }

  lemma WellSpacedCons(s: string)
    requires s != ""
    ensures WellSpaced(s) <==>
      WellSpaced(s[1..]) && (IsAlnum(s[0]) || (IsSeparator(s[0]) && (|s| == 1 || !IsSeparator(s[1]))))
  {
    assert forall i :: 0 < i < |s| ==> s[1..][i - 1] == s[i];
    if WellSpaced(s) {
      forall i, j | 0 <= i < |s[1..]| && j == i + 1 && j < |s[1..]|
        ensures !(IsSeparator(s[1..][i]) && IsSeparator(s[1..][j]))
      {
        assert s[1..][i] == s[i + 1] && s[1..][j] == s[j + 1];
      }
    }
  }

  lemma {:induction false} ReadsWellSpaced(s: string)
    ensures Reads(s, InWord) <==> WellSpaced(s)
    ensures Reads(s, AfterSeparator) <==> WellSpaced(s) && (s == "" || !IsSeparator(s[0]))
  {
    if s != "" {
      ReadsWellSpaced(s[1..]);
      WellSpacedCons(s);
    }
  }

  lemma SegmentsExactly(s: string)
    ensures ValidSegment(s) <==> Segment(s)
  {
    if s != "" {
      ReadsWellSpaced(s[1..]);
      WellSpacedCons(s);
      assert ValidSegment(s) <==> IsAlnum(s[0]) && WellSpaced(s);
    }
  }

  /** ToSecretSafe turns underscores into dashes and changes nothing else. */
  predicate Dashed(s: string, safe: string) {
    |safe| == |s| && forall i :: 0 <= i < |s| ==> safe[i] == if s[i] == '_' then '-' else s[i]
  }

  lemma DashedExactly(s: string, safe: string)
    ensures ToSecretSafe(s) == safe <==> Dashed(s, safe)
  {
    ReplaceCharPointwise(s, '_', '-');
  }

  /** The answers of NewTenantIdentifier: a malformed segment is the user's error, a text
      of more than 127 characters the system's. */
  lemma TenantIdentifierAnswers(org: string, namespace: string, accountName: string)
    ensures NewTenantIdentifier(org, namespace, accountName) == Err(UserError)
       <==> !(Segment(org) && Segment(namespace) && Segment(accountName))
    ensures NewTenantIdentifier(org, namespace, accountName) == Err(SystemError)
       <==> Segment(org) && Segment(namespace) && Segment(accountName)
            && |"yk-"| + |org| + |"--"| + |namespace| + |"--"| + |accountName| > 127
  {
    SegmentsExactly(org);
    SegmentsExactly(namespace);
    SegmentsExactly(accountName);
    ReplaceCharPointwise(org, '_', '-');
    ReplaceCharPointwise(namespace, '_', '-');
    ReplaceCharPointwise(accountName, '_', '-');
  }

  lemma OrgAdminIdentifierAnswers(org: string, orgAdminAccount: string)
    ensures NewOrgAdminIdentifier(org, orgAdminAccount) == Err(UserError)
       <==> !(Segment(org) && Segment(orgAdminAccount))
    ensures NewOrgAdminIdentifier(org, orgAdminAccount) == Err(SystemError)
       <==> Segment(org) && Segment(orgAdminAccount)
            && |"yk-orgadmin--"| + |org| + |"--"| + |orgAdminAccount| > 127
  {
    SegmentsExactly(org);
    SegmentsExactly(orgAdminAccount);
    ReplaceCharPointwise(org, '_', '-');
    ReplaceCharPointwise(orgAdminAccount, '_', '-');
  }

  // ---- a decoder for the joined segments ----------------------------------------

  datatype Split = Split(segment: string, rest: string)
  datatype Segments = Segments(org: string, namespace: string, accountName: string)

  /** Index of the first "--", or |s| if there is none. */
  function FirstDoubleDash(s: string): (i: nat)
    ensures i <= |s|
  {
    if |s| < 2 then |s|
    else if s[0] == '-' && s[1] == '-' then 0
    else 1 + FirstDoubleDash(s[1..])
  }

  /** Cuts the first segment off. A segment may itself end in a dash, so a run of
      three dashes is that dash and then the joint. */
  function TakeSegment(s: string): Option<Split> {
    var i := FirstDoubleDash(s);
    if i + 2 > |s| then None
    else if i + 2 < |s| && s[i + 2] == '-' then Some(Split(s[..i + 1], s[i + 3..]))
    else Some(Split(s[..i], s[i + 2..]))
  }

  function Decode(id: string): Option<Segments> {
    if !("yk-" <= id) then None else
    var first := TakeSegment(id[3..]);
    if first.None? then None else
    var second := TakeSegment(first.value.rest);
    if second.None? then None
    else Some(Segments(first.value.segment, second.value.segment, second.value.rest))
  }

  /** What a segment looks like after ToSecretSafe. */
  predicate Joinable(s: string) {
    && s != ""
    && s[0] != '-'
    && (forall i, j :: 0 <= i < |s| && j == i + 1 && j < |s| ==> !(s[i] == '-' && s[j] == '-'))
  }

  lemma SafeSegmentsAreJoinable(v: string)
    requires ValidSegment(v)
    ensures Joinable(ToSecretSafe(v)) && |ToSecretSafe(v)| == |v|
  {
    ReplaceCharPointwise(v, '_', '-');
  }

  lemma {:induction false} FirstDoubleDashAfter(s: string, rest: string)
    requires forall i, j :: 0 <= i < |s| && j == i + 1 && j < |s| ==> !(s[i] == '-' && s[j] == '-')
    requires rest != "" && rest[0] != '-'
    ensures FirstDoubleDash(s + "--" + rest)
         == if s != "" && s[|s| - 1] == '-' then |s| - 1 else |s|
  {
    var t := s + "--" + rest;
    if s != "" {
      assert t[1..] == s[1..] + "--" + rest;
      assert t[0] == s[0] && t[1] == if |s| > 1 then s[1] else '-';
      forall i, j | 0 <= i < |s[1..]| && j == i + 1 && j < |s[1..]|
        ensures !(s[1..][i] == '-' && s[1..][j] == '-')
      {
        assert s[1..][i] == s[i + 1] && s[1..][j] == s[j + 1];
      }
      FirstDoubleDashAfter(s[1..], rest);
    }
  }

  lemma TakeSegmentUndoesJoin(s: string, rest: string)
    requires Joinable(s)
    requires rest != "" && rest[0] != '-'
    ensures TakeSegment(s + "--" + rest) == Some(Split(s, rest))
  {
    var t := s + "--" + rest;
    FirstDoubleDashAfter(s, rest);
    assert t[|s|] == '-' && t[|s| + 1] == '-' && t[|s| + 2] == rest[0];
    assert t[..|s|] == s && t[|s| + 2..] == rest;
  }

  lemma DecodeUndoesJoin(a: string, b: string, c: string)
    requires Joinable(a) && Joinable(b) && Joinable(c)
    ensures Decode("yk-" + a + "--" + b + "--" + c) == Some(Segments(a, b, c))
  {
    var tail := b + "--" + c;
    assert "yk-" + a + "--" + b + "--" + c == "yk-" + (a + "--" + tail);
    assert ("yk-" + (a + "--" + tail))[3..] == a + "--" + tail;
    TakeSegmentUndoesJoin(a, tail);
    TakeSegmentUndoesJoin(b, c);
  }

  /** Every accepted tenant identifier decodes to its three normalised segments. */
  lemma TenantIdentifierDecodes(org: string, namespace: string, accountName: string)
    requires NewTenantIdentifier(org, namespace, accountName).Ok?
    ensures Decode(NewTenantIdentifier(org, namespace, accountName).value)
         == Some(Segments(ToSecretSafe(org), ToSecretSafe(namespace), ToSecretSafe(accountName)))
    ensures var d := Decode(NewTenantIdentifier(org, namespace, accountName).value).value;
      Dashed(org, d.org) && Dashed(namespace, d.namespace) && Dashed(accountName, d.accountName)
  {
    DashedExactly(org, ToSecretSafe(org));
    DashedExactly(namespace, ToSecretSafe(namespace));
    DashedExactly(accountName, ToSecretSafe(accountName));
    SafeSegmentsAreJoinable(org);
    SafeSegmentsAreJoinable(namespace);
    SafeSegmentsAreJoinable(accountName);
    DecodeUndoesJoin(ToSecretSafe(org), ToSecretSafe(namespace), ToSecretSafe(accountName));
  }

  lemma OrgAdminIsAJoin(org: string, orgAdminAccount: string)
    requires NewOrgAdminIdentifier(org, orgAdminAccount).Ok?
    ensures NewOrgAdminIdentifier(org, orgAdminAccount).value
         == "yk-" + "orgadmin" + "--" + ToSecretSafe(org) + "--" + ToSecretSafe(orgAdminAccount)
  {
    assert "yk-orgadmin--" == "yk-" + "orgadmin" + "--";
  }

  lemma OrgAdminIdentifierDecodes(org: string, orgAdminAccount: string)
    requires NewOrgAdminIdentifier(org, orgAdminAccount).Ok?
    ensures Decode(NewOrgAdminIdentifier(org, orgAdminAccount).value)
         == Some(Segments("orgadmin", ToSecretSafe(org), ToSecretSafe(orgAdminAccount)))
    ensures var d := Decode(NewOrgAdminIdentifier(org, orgAdminAccount).value).value;
      Dashed(org, d.namespace) && Dashed(orgAdminAccount, d.accountName)
  {
    DashedExactly(org, ToSecretSafe(org));
    DashedExactly(orgAdminAccount, ToSecretSafe(orgAdminAccount));
    SafeSegmentsAreJoinable(org);
    SafeSegmentsAreJoinable(orgAdminAccount);
    OrgAdminIsAJoin(org, orgAdminAccount);
    DecodeUndoesJoin("orgadmin", ToSecretSafe(org), ToSecretSafe(orgAdminAccount));
  }

  /** Two accepted tenant identifiers are equal exactly when the normalised tuples are. */
  lemma TenantIdentifiersCollideOnlyNormalised(o1: string, n1: string, a1: string, o2: string, n2: string, a2: string)
    requires NewTenantIdentifier(o1, n1, a1).Ok? && NewTenantIdentifier(o2, n2, a2).Ok?
    ensures NewTenantIdentifier(o1, n1, a1) == NewTenantIdentifier(o2, n2, a2)
       <==> ToSecretSafe(o1) == ToSecretSafe(o2)
            && ToSecretSafe(n1) == ToSecretSafe(n2) && ToSecretSafe(a1) == ToSecretSafe(a2)
  {
    TenantIdentifierDecodes(o1, n1, a1);
    TenantIdentifierDecodes(o2, n2, a2);
  }

  /** A tenant identifier equals an org-admin one exactly when the tenant's
      organization normalises to `orgadmin` and the other segments agree. */
  lemma TenantMeetsOrgAdmin(o: string, n: string, a: string, org: string, admin: string)
    requires NewTenantIdentifier(o, n, a).Ok? && NewOrgAdminIdentifier(org, admin).Ok?
    ensures NewTenantIdentifier(o, n, a) == NewOrgAdminIdentifier(org, admin)
       <==> ToSecretSafe(o) == "orgadmin"
            && ToSecretSafe(n) == ToSecretSafe(org) && ToSecretSafe(a) == ToSecretSafe(admin)
  {
    TenantIdentifierDecodes(o, n, a);
    OrgAdminIdentifierDecodes(org, admin);
    OrgAdminIsAJoin(org, admin);
  }

  // ---- names Kubernetes admits -----------------------------------------------------

  predicate IsLowerAlnum(c: char) { IsLower(c) || IsDigit(c) }

  /** The CRD's rule for metadata.name. */
  predicate ValidAccountName(name: string) {
    && 0 < |name| <= 55
    && IsLower(name[0])
    && IsLowerAlnum(name[|name| - 1])
    && (forall i :: 0 <= i < |name| ==> IsLowerAlnum(name[i]) || name[i] == '-')
    && (forall i, j :: 0 <= i < |name| && j == i + 1 && j < |name| ==> !(name[i] == '-' && name[j] == '-'))
  }

  /** A namespace is a DNS label (section 2.3.1 of RFC 1035 as relaxed by RFC 1123). */
  predicate ValidNamespace(ns: string) {
    && 0 < |ns| <= 63
    && IsLowerAlnum(ns[0])
    && IsLowerAlnum(ns[|ns| - 1])
    && (forall i :: 0 <= i < |ns| ==> IsLowerAlnum(ns[i]) || ns[i] == '-')
  }

  lemma {:induction false} NothingToReplace(s: string, c: char, sub: string)
    requires forall i :: 0 <= i < |s| ==> s[i] != c
    ensures ReplaceChar(s, c, sub) == s
  {
    if s != "" {
      NothingToReplace(s[1..], c, sub);
    }
  }

  /** Two pool keys, (namespace, name) pairs, never share a secret: on names that
      Kubernetes admits the identifier determines the pair. */
  lemma PoolKeysNeverShareASecret(org: string, n1: string, a1: string, n2: string, a2: string)
    requires ValidNamespace(n1) && ValidNamespace(n2) && ValidAccountName(a1) && ValidAccountName(a2)
    requires NewTenantIdentifier(org, n1, a1).Ok? && NewTenantIdentifier(org, n2, a2).Ok?
    ensures NewTenantIdentifier(org, n1, a1) == NewTenantIdentifier(org, n2, a2) <==> n1 == n2 && a1 == a2
  {
    TenantIdentifiersCollideOnlyNormalised(org, n1, a1, org, n2, a2);
    NothingToReplace(n1, '_', "-");
    NothingToReplace(n2, '_', "-");
    NothingToReplace(a1, '_', "-");
    NothingToReplace(a2, '_', "-");
  }

  // ---- naming.go and the length test of apply.go --------------------------------------

  const NAMESPACE_SUFFIX_LEN := 5
  const MAX_ACCOUNT_LABEL_LEN := 63

  /** `suffix` stands for the first five base32 characters of the namespace's digest. */
  function ResolveName(name: string, suffix: string): string {
    ReplaceChar(name, '-', "_") + "_" + suffix
  }

  /** checkCreatable's length test, written as the source computes it. */
  predicate NameFits(org: string, name: string, resolvedName: string) {
    var suffixLen := |resolvedName| - |name|;
    var maxNameLen := MAX_ACCOUNT_LABEL_LEN - 1 - |org| - suffixLen;
    |name| <= maxNameLen
  }

  /** The resolved name is the name with dashes for underscores, an underscore, and the
      suffix: an identifier Snowflake takes unquoted. */
  lemma ResolvedNameExactly(name: string, suffix: string, i: nat)
    requires ValidAccountName(name) && i < |name|
    requires forall k :: 0 <= k < |suffix| ==> IsLowerAlnum(suffix[k])
    ensures |ResolveName(name, suffix)| == |name| + 1 + |suffix|
    ensures ResolveName(name, suffix)[i] == if name[i] == '-' then '_' else name[i]
    ensures ResolveName(name, suffix)[|name|..] == "_" + suffix
    ensures Quoting.BareIdentifier(ResolveName(name, suffix)).Ok?
  {
    ReplaceCharPointwise(name, '-', '_');
    var r := ResolveName(name, suffix);
    forall k | 0 <= k < |r| ensures Quoting.IsWordChar(r[k]) {
      if k > |name| { assert r[k] == suffix[k - |name| - 1]; }
    }
  }

  /** The test accepts exactly the names whose DNS label fits Snowflake's limit. */
  lemma NameFitsExactly(org: string, name: string, suffix: string)
    ensures NameFits(org, name, ResolveName(name, suffix))
       <==> |org + "-" + ResolveName(name, suffix)| <= 63
  {
    ReplaceCharPointwise(name, '-', '_');
  }

  lemma AccountNameIsASegment(name: string)
    requires ValidAccountName(name)
    ensures ValidSegment(name)
  {
  }

  /** An accepted name leaves room for any namespace: the identifier's own length
      check can then never fail, and a failure is always the caller's segment. */
  lemma AcceptedNameFitsTheIdentifier(org: string, namespace: string, name: string, suffix: string)
    requires |suffix| == NAMESPACE_SUFFIX_LEN && |namespace| <= 63
    requires NameFits(org, name, ResolveName(name, suffix))
    ensures NewTenantIdentifier(org, namespace, name) != Err(SystemError)
    ensures NewTenantIdentifier(org, namespace, name).Ok?
       <==> ValidSegment(org) && ValidSegment(namespace) && ValidSegment(name)
  {
    ReplaceCharPointwise(name, '-', '_');
    ReplaceCharPointwise(org, '_', '-');
    ReplaceCharPointwise(namespace, '_', '-');
    ReplaceCharPointwise(name, '_', '-');
  }

  // ---- checkCreatable ------------------------------------------------------------------

  /** `available` is None for a region the backplane does not know; `alphaTester` is the
      reading of the namespace's label. */
  function CheckCreatable(
      available: Option<bool>, alphaTester: Result<bool>, org: string, name: string, resolvedName: string): Result<()>
  {
    if available.None? then Err(UserError)
    else if alphaTester.Err? then Err(alphaTester.error)
    else if !available.value && !alphaTester.value then Err(UserError)
    else if !NameFits(org, name, resolvedName) then Err(UserError)
    else Ok(())
  }

  /** What passes has a region it may use and a DNS label Snowflake takes, and nothing
      else is refused. */
  lemma CreatableExactly(available: Option<bool>, alphaTester: Result<bool>, org: string, name: string, suffix: string)
    ensures CheckCreatable(available, alphaTester, org, name, ResolveName(name, suffix)).Ok? <==>
      && available.Some? && alphaTester.Ok? && (available.value || alphaTester.value)
      && |org + "-" + ResolveName(name, suffix)| <= 63
    ensures CheckCreatable(available, alphaTester, org, name, ResolveName(name, suffix)).Err? ==>
      (CheckCreatable(available, alphaTester, org, name, ResolveName(name, suffix)).error.SystemError? <==>
        available.Some? && alphaTester == Err(SystemError))
  {
    NameFitsExactly(org, name, suffix);
  }

  lemma UpperInjectiveHere(c: char, d: char)
    requires (IsLowerAlnum(c) || c == '_') && (IsLowerAlnum(d) || d == '_')
    requires UpperChar(c) == UpperChar(d)
    ensures c == d
  {
  }

  /** Resolved names are unique in the sense Snowflake uses, ignoring case: they
      agree only for the same resource name under the same namespace suffix. */
  lemma ResolvedNamesAreDistinct(n1: string, s1: string, n2: string, s2: string)
    requires ValidAccountName(n1) && ValidAccountName(n2)
    requires |s1| == |s2| == NAMESPACE_SUFFIX_LEN
    requires forall i :: 0 <= i < NAMESPACE_SUFFIX_LEN ==> IsLowerAlnum(s1[i]) && IsLowerAlnum(s2[i])
    ensures EqualFold(ResolveName(n1, s1), ResolveName(n2, s2)) <==> n1 == n2 && s1 == s2
    ensures SameButForCase(ResolveName(n1, s1), ResolveName(n2, s2)) <==> n1 == n2 && s1 == s2
  {
    EqualFoldExactly(ResolveName(n1, s1), ResolveName(n2, s2));
    var r1, r2 := ResolveName(n1, s1), ResolveName(n2, s2);
    ReplaceCharPointwise(n1, '-', '_');
    ReplaceCharPointwise(n2, '-', '_');
    ToUpperPointwise(r1);
    ToUpperPointwise(r2);
    if EqualFold(r1, r2) {
      assert |n1| == |n2|;
      forall i | 0 <= i < |r1| ensures r1[i] == r2[i] {
        assert UpperChar(r1[i]) == ToUpper(r1)[i] == ToUpper(r2)[i] == UpperChar(r2[i]);
        UpperInjectiveHere(r1[i], r2[i]);
      }
      forall i | 0 <= i < |n1| ensures n1[i] == n2[i] {
        assert r1[i] == r2[i];
      }
      forall i | 0 <= i < NAMESPACE_SUFFIX_LEN ensures s1[i] == s2[i] {
        assert r1[|n1| + 1 + i] == r2[|n1| + 1 + i];
      }
    }
  }
}
