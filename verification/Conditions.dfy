/** Conditional headers: the substring test against entity tags, and what it decides. */
module Conditions {
  import opened Hex
  import opened Options

  /** An entity tag; the text inside the quotes contains no quote (section 2.3 of RFC 7232). */
  datatype Tag = Tag(weak: bool, etag: string)

  /** A header field: not sent, `*`, or a list of tags with the text between them. */
  datatype Condition = Absent | Any | List(gaps: seq<string>, tags: seq<Tag>)

  predicate Quoteless(s: string) {
    forall i :: 0 <= i < |s| ==> s[i] != '"'
  }

  /** Commas and optional white space. */
  predicate IsGap(s: string) {
    forall i :: 0 <= i < |s| ==> s[i] in {' ', '\t', ','}
  }

  predicate IsList(gaps: seq<string>, tags: seq<Tag>) {
    && |gaps| == |tags| + 1
    && (forall i :: 0 <= i < |gaps| ==> IsGap(gaps[i]))
    && (forall i :: 0 < i < |tags| ==> ',' in gaps[i])
    && (forall i :: 0 <= i < |tags| ==> Quoteless(tags[i].etag))
  }

  predicate WellFormed(c: Condition) {
    c.List? ==> c.tags != [] && IsList(c.gaps, c.tags)
  }

  function Lead(gap: string, tag: Tag): string {
    gap + if tag.weak then "W/" else ""
  }

  function Quoted(s: string): string {
    "\"" + s + "\""
  }

  function Render(gaps: seq<string>, tags: seq<Tag>): string
    requires |gaps| == |tags| + 1
  {
    if tags == [] then gaps[0]
    else Lead(gaps[0], tags[0]) + Quoted(tags[0].etag) + Render(gaps[1..], tags[1..])
  }

  function Text(c: Condition): string
    requires WellFormed(c)
  {
    match c
    case Absent => ""
    case Any => "*"
    case List(gaps, tags) => Render(gaps, tags)
  }

  predicate At(s: string, sub: string, p: nat) {
    p + |sub| <= |s| && forall i :: 0 <= i < |sub| ==> s[p + i] == sub[i]
  }

  predicate Contains(s: string, sub: string) {
    exists p :: 0 <= p <= |s| && At(s, sub, p)
  }

  /** The name of an object: a non-empty string of lower-case hexadecimal digits. */
  predicate ObjectName(s: string) {
    s != "" && forall i :: 0 <= i < |s| ==> LowerDigit(s[i])
  }

  /** Some tag, weak or strong, carries the text `oid`. */
  predicate Named(tags: seq<Tag>, oid: string) {
    exists i :: 0 <= i < |tags| && tags[i].etag == oid
  }

  predicate StronglyNamed(tags: seq<Tag>, oid: string) {
    exists i :: 0 <= i < |tags| && tags[i].etag == oid && !tags[i].weak
  }

  /** Nothing a list can begin with is a hexadecimal digit. */
  lemma RenderStart(gaps: seq<string>, tags: seq<Tag>)
    requires IsList(gaps, tags)
    ensures var s := Render(gaps, tags); s != "" ==> !LowerDigit(s[0])
  {
  }

  /** An opening quote at p, the name, a closing quote. */
  predicate NameAt(s: string, oid: string, p: nat) {
    && p + |oid| + 2 <= |s| && s[p] == '"' && s[p + |oid| + 1] == '"'
    && forall i :: 0 <= i < |oid| ==> s[p + 1 + i] == oid[i]
  }

  lemma QuotedThenName(s: string, oid: string, p: nat)
    requires At(s, Quoted(oid), p)
    ensures NameAt(s, oid, p)
  {
    var q := Quoted(oid);
    assert q[0] == '"' && q[|oid| + 1] == '"';
    forall i | 0 <= i < |oid|
      ensures s[p + 1 + i] == oid[i]
    {
      assert s[p + (1 + i)] == q[1 + i];
    }
  }

  lemma NameThenQuoted(s: string, oid: string, p: nat)
    requires NameAt(s, oid, p)
    ensures At(s, Quoted(oid), p)
  {
    var q := Quoted(oid);
    forall i | 0 <= i < |q|
      ensures s[p + i] == q[i]
    {
      if 0 < i <= |oid| {
        assert s[p + 1 + (i - 1)] == oid[i - 1];
      }
    }
  }

  /** `lead "etag" rest`, position by position. */
  ghost predicate Laid(s: string, lead: string, etag: string, rest: string) {
    && |s| == |lead| + |etag| + 2 + |rest|
    && s[|lead|] == '"' && s[|lead| + 1 + |etag|] == '"'
    && (forall i :: 0 <= i < |lead| ==> s[i] == lead[i])
    && (forall i :: 0 <= i < |etag| ==> s[|lead| + 1 + i] == etag[i])
    && (forall i :: 0 <= i < |rest| ==> s[|lead| + |etag| + 2 + i] == rest[i])
  }

  /** A quoted name that starts before `rest` is the tag itself: it cannot straddle two tags. */
  lemma OccursInTag(s: string, lead: string, etag: string, rest: string, oid: string, p: nat)
    requires Laid(s, lead, etag, rest)
    requires Quoteless(lead) && Quoteless(etag) && ObjectName(oid)
    requires rest != "" ==> !LowerDigit(rest[0])
    requires p < |lead| + |etag| + 2 && At(s, Quoted(oid), p)
    ensures p == |lead| && etag == oid
  {
    QuotedThenName(s, oid, p);
    var open, close := |lead|, |lead| + 1 + |etag|;
    forall i | 0 <= i < close && i != open
      ensures s[i] != '"'
    {
      if i < open {
        assert s[i] == lead[i];
      } else {
        assert s[|lead| + 1 + (i - open - 1)] == etag[i - open - 1];
      }
    }
    forall i | p < i <= p + |oid|
      ensures LowerDigit(s[i])
    {
      assert s[p + 1 + (i - p - 1)] == oid[i - p - 1];
    }
    assert close + 1 < |s| ==> s[|lead| + |etag| + 2 + 0] == rest[0];
    assert LowerDigit(s[p + 1]);
    assert p == open && p + 1 + |oid| == close;
    assert forall i :: 0 <= i < |oid| ==> s[p + 1 + i] == oid[i] && s[|lead| + 1 + i] == etag[i];
    assert etag == oid;
  }

  lemma TagOccurs(s: string, lead: string, etag: string, rest: string)
    requires Laid(s, lead, etag, rest)
    ensures At(s, Quoted(etag), |lead|)
  {
    NameThenQuoted(s, etag, |lead|);
  }

  lemma RestOccurs(s: string, lead: string, etag: string, rest: string, sub: string, p: nat)
    requires Laid(s, lead, etag, rest)
    ensures At(rest, sub, p) <==> At(s, sub, |lead| + |etag| + 2 + p)
  {
  }

  lemma ContainsCons(s: string, lead: string, etag: string, rest: string, oid: string)
    requires Laid(s, lead, etag, rest)
    requires Quoteless(lead) && Quoteless(etag) && ObjectName(oid)
    requires rest != "" ==> !LowerDigit(rest[0])
    ensures Contains(s, Quoted(oid)) <==> etag == oid || Contains(rest, Quoted(oid))
  {
    var n := |lead| + |etag| + 2;
    if p :| 0 <= p <= |s| && At(s, Quoted(oid), p) {
      if p < n {
        OccursInTag(s, lead, etag, rest, oid, p);
      } else {
        RestOccurs(s, lead, etag, rest, Quoted(oid), p - n);
      }
    }
    if etag == oid {
      TagOccurs(s, lead, etag, rest);
    }
    if p :| 0 <= p <= |rest| && At(rest, Quoted(oid), p) {
      RestOccurs(s, lead, etag, rest, Quoted(oid), p);
    }
  }

  /** The substring test finds a quoted object name in a well-formed list exactly when the name is
      one of the list's members, whether weak or strong. */
  lemma {:induction false} ContainsIffNamed(gaps: seq<string>, tags: seq<Tag>, oid: string)
    requires IsList(gaps, tags) && ObjectName(oid)
    ensures Contains(Render(gaps, tags), Quoted(oid)) <==> Named(tags, oid)
  {
    var s := Render(gaps, tags);
    if tags == [] {
      forall p | 0 <= p <= |s|
        ensures !At(s, Quoted(oid), p)
      {
        if At(s, Quoted(oid), p) { QuotedThenName(s, oid, p); }
      }
    } else {
      var lead, etag, rest := Lead(gaps[0], tags[0]), tags[0].etag, Render(gaps[1..], tags[1..]);
      RenderStart(gaps[1..], tags[1..]);
      ContainsIffNamed(gaps[1..], tags[1..], oid);
      ContainsCons(s, lead, etag, rest, oid);
      NamedCons(tags, oid);
    }
  }

  lemma NamedCons(tags: seq<Tag>, oid: string)
    requires tags != []
    ensures Named(tags, oid) <==> tags[0].etag == oid || Named(tags[1..], oid)
  {
  }

  /** The decision the server takes, on the header text. */
  predicate ShouldStore(ifMatch: string, ifNoneMatch: string, present: bool, oid: string) {
    && (ifMatch != "" ==> present && (ifMatch != "*" ==> Contains(ifMatch, Quoted(oid))))
    && (ifNoneMatch != "" && present ==> ifNoneMatch != "*" && !Contains(ifNoneMatch, Quoted(oid)))
  }

  /** Section 3.1 of RFC 7232: strong comparison. */
  predicate MatchHolds(c: Condition, current: Option<string>) {
    match c
    case Absent => true
    case Any => current.Some?
    case List(_, tags) => current.Some? && StronglyNamed(tags, current.value)
  }

  /** Section 3.2 of RFC 7232: weak comparison. */
  predicate NoneMatchHolds(c: Condition, current: Option<string>) {
    match c
    case Absent => true
    case Any => current.None?
    case List(_, tags) => current.None? || !Named(tags, current.value)
  }

  lemma ListText(c: Condition)
    requires WellFormed(c) && c.List?
    ensures Text(c) != "" && Text(c) != "*"
  {
  }

  /** The server's decision is the one RFC 7232 prescribes, except that If-Match accepts an object
      its list names only weakly. */
  lemma ShouldStoreIff(ifMatch: Condition, ifNoneMatch: Condition, current: Option<string>)
    requires WellFormed(ifMatch) && WellFormed(ifNoneMatch)
    requires current.Some? ==> ObjectName(current.value)
    ensures var stores := ShouldStore(Text(ifMatch), Text(ifNoneMatch), current.Some?,
                                      if current.Some? then current.value else "");
            var prescribed := MatchHolds(ifMatch, current) && NoneMatchHolds(ifNoneMatch, current);
            && (prescribed ==> stores)
            && (stores == prescribed <==>
                !(&& ifMatch.List? && current.Some? && NoneMatchHolds(ifNoneMatch, current)
                  && Named(ifMatch.tags, current.value) && !StronglyNamed(ifMatch.tags, current.value)))
  {
    if ifMatch.List? {
      ListText(ifMatch);
      if current.Some? { ContainsIffNamed(ifMatch.gaps, ifMatch.tags, current.value); }
    }
    if ifNoneMatch.List? {
      ListText(ifNoneMatch);
      if current.Some? { ContainsIffNamed(ifNoneMatch.gaps, ifNoneMatch.tags, current.value); }
    }
  }
}
