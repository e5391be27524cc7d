/**
 * Reading one Form-4 ownership document: looking nodes up by a path of
 * local names, normalising their text, the relationship flags, the
 * accession number and web address taken from the document's URL, and one
 * transaction record per non-derivative transaction of the document.
 */
module AtomFilings {
  import opened Wrappers
  import opened Strings
  import opened Numbers
  import opened Calendar
  import opened Models
  import opened Seqs

  /**
   * An element of a parsed document: its local name, the concatenation of
   * its own text nodes, and its child elements in document order. Every
   * lookup of the source ignores namespaces, so none are kept.
   */
  datatype Element = Element(name: string, text: string, children: seq<Element>)

  // ----- child lookup -----

  /** Position of the first element named `name`, as `get_child` finds it. */
  function FindChild(cs: seq<Element>, name: string): (r: Option<nat>)
    ensures r.Some? ==> r.value < |cs| && cs[r.value].name == name
    ensures r.Some? ==> forall j :: 0 <= j < r.value ==> cs[j].name != name
    ensures r.None? ==> forall j :: 0 <= j < |cs| ==> cs[j].name != name
  {
    if cs == [] then None
    else if cs[0].name == name then Some(0)
    else
      var k :- FindChild(cs[1..], name);
      Some(k + 1)
  }

  /** `Element::get_child(name, NSChoice::Any)`: the first child with that name. */
  function GetChild(el: Element, name: string): (r: Option<Element>)
    ensures r.Some? ==> r.value in el.children && r.value.name == name
    ensures r.None? <==> forall c :: c in el.children ==> c.name != name
  {
    var k :- FindChild(el.children, name);
    Some(el.children[k])
  }

  // ----- node text -----

  /** The text of a node as the extractor keeps it: trimmed, then upper-cased. */
  function Normalize(s: string): string {
    ToUpper(Trim(s))
  }

  predicate IsNormalized(s: string) {
    IsTrimmed(s) && forall i :: 0 <= i < |s| ==> !IsLowerAscii(s[i])
  }

  /** `Normalize` always yields normalized text and leaves such text as it is. */
  lemma NormalizeIsNormalized(s: string)
    ensures IsNormalized(Normalize(s))
    ensures IsNormalized(s) ==> Normalize(s) == s
    ensures Normalize(Normalize(s)) == Normalize(s)
  {
    var t := Trim(s);
    var u := ToUpper(t);
    assert IsTrimmed(u) by {
      if u != [] {
        assert IsWhitespace(u[0]) <==> IsWhitespace(t[0]);
        assert IsWhitespace(u[|u| - 1]) <==> IsWhitespace(t[|t| - 1]);
      }
    }
    assert Trim(u) == u;
  }

  /** `XMLNode`: the normalized text of one element. */
  datatype XmlNode = XmlNode(text: string)

  /** `XMLNode::default()`, which `unwrap_or_default` falls back to. */
  const EmptyNode := XmlNode("")

  /**
   * `XMLNode::new`: an element with a `value` child gives that child's
   * text, any other element its own text, normalized either way.
   */
  function NewNode(el: Element): (n: XmlNode)
    ensures IsNormalized(n.text)
    ensures GetChild(el, "value").Some? ==> n.text == Normalize(GetChild(el, "value").value.text)
    ensures GetChild(el, "value").None? ==> n.text == Normalize(el.text)
  {
    var source := match GetChild(el, "value") case Some(v) => v.text case None => el.text;
    NormalizeIsNormalized(source);
    XmlNode(Normalize(source))
  }

  /** With a `value` child present, the element's own text plays no part. */
  lemma ValueChildWins(name: string, t1: string, t2: string, cs: seq<Element>)
    requires exists c :: c in cs && c.name == "value"
    ensures NewNode(Element(name, t1, cs)) == NewNode(Element(name, t2, cs))
  {
    var c :| c in cs && c.name == "value";
    assert GetChild(Element(name, t1, cs), "value").Some?;
  }

  /** `XMLNode::parse_num`: the number the text spells, or 0 when it spells none. */
  function ParseNum(n: XmlNode): (r: real)
    ensures ParseFloat(n.text).None? ==> r == 0.0
    ensures n.text == [] ==> r == 0.0
    ensures n.text != [] && AllDigits(n.text) ==> r == DigitsValue(n.text) as real
  {
    var v := match ParseFloat(n.text) case Some(v) => v case None => 0.0;
    if n.text != [] && AllDigits(n.text) then ParseFloatOfDigits(n.text); v else v
  }

  const InvalidDate := "Invalid date string"

  /** `XMLNode::parse_date`: the `%Y-%m-%d` date of the text, or a panic. */
  function NodeDate(n: XmlNode): (r: Outcome<Date>)
    ensures !r.Err?
    ensures r.Ok? <==> ParseDate(n.text).Some?
    ensures r.Ok? ==> Valid(r.value) && InRange(r.value)
    ensures r.Panic? ==> r.reason == InvalidDate
  {
    match ParseDate(n.text)
    case Some(d) => Ok(d)
    case None => Panic(InvalidDate)
  }

  /**
   * A date written as `%Y-%m-%d` is read back as that date when its year is
   * one `NaiveDate` holds; any other year panics.
   */
  lemma NodeDateOfIsoText(d: Date)
    requires Valid(d)
    ensures NodeDate(XmlNode(IsoText(d))) == if InRange(d) then Ok(d) else Panic(InvalidDate)
  {
    ParseIsoText(d);
  }

  // ----- traverse -----

  /** The element reached from `el` by following `path`, one child per step. */
  function Descend(el: Element, path: seq<string>): Option<Element> {
    if path == [] then Some(el)
    else
      var c :- GetChild(el, path[0]);
      Descend(c, path[1..])
  }

  /**
   * What `XMLFiling::traverse` returns: the node at the end of a non-empty
   * path, and nothing for the empty path, where no step was taken.
   */
  function Lookup(root: Element, path: seq<string>): Option<XmlNode> {
    if path == [] then None
    else
      var e :- Descend(root, path);
      Some(NewNode(e))
  }

  /** `XMLFiling::traverse`: walk the path one child at a time. */
  method Traverse(root: Element, path: seq<string>) returns (r: Option<XmlNode>)
    ensures r == Lookup(root, path)
    ensures path == [] ==> r.None?
  {
    var pos: Option<Element> := None;
    var prev := root;
    var i := 0;
    while i < |path|
      invariant 0 <= i <= |path|
      invariant Descend(root, path) == Descend(prev, path[i..])
      invariant i == 0 <==> pos.None?
      invariant pos.Some? ==> pos.value == prev
    {
      pos := GetChild(prev, path[i]);
      if pos.Some? {
        prev := pos.value;
      } else {
        return None;
      }
      i := i + 1;
    }
    match pos {
      case Some(el) => return Some(NewNode(el));
      case None => return None;
    }
  }

  /** Following `p + q` is following `p`, then `q` from where `p` ends. */
  lemma {:induction false} DescendAppend(el: Element, p: seq<string>, q: seq<string>)
    ensures Descend(el, p + q)
         == match Descend(el, p) case None => None case Some(e) => Descend(e, q)
  {
    if p == [] {
      assert p + q == q;
    } else {
      assert (p + q)[1..] == p[1..] + q;
      match GetChild(el, p[0]) {
        case None =>
        case Some(c) => DescendAppend(c, p[1..], q);
      }
    }
  }

  /** Step `k` of `path` is the first that finds no child of that name. */
  predicate MissingAt(root: Element, path: seq<string>, k: nat)
    requires k < |path|
  {
    match Descend(root, path[..k])
    case None => false
    case Some(e) => GetChild(e, path[k]).None?
  }

  /**
   * `traverse` returns nothing exactly when the path is empty or some step
   * of it has no child of the name it asks for.
   */
  lemma LookupNone(root: Element, path: seq<string>)
    ensures Lookup(root, path).None?
        <==> path == [] || exists k :: 0 <= k < |path| && MissingAt(root, path, k)
  {
    if path != [] {
      if Descend(root, path).None? {
        var k := FirstMissing(root, path);
        assert MissingAt(root, path, k);
      } else {
        forall k | 0 <= k < |path| ensures !MissingAt(root, path, k) {
          NotMissing(root, path, k);
        }
      }
    }
  }

  /** When the walk fails, the step at which it first fails. */
  lemma {:induction false} FirstMissing(root: Element, path: seq<string>) returns (k: nat)
    requires Descend(root, path).None?
    ensures k < |path| && MissingAt(root, path, k)
  {
    assert path != [];
    assert path[..0] == [];
    match GetChild(root, path[0]) {
      case None =>
        k := 0;
      case Some(c) =>
        var j := FirstMissing(c, path[1..]);
        k := j + 1;
        assert path[..k] == [path[0]] + path[1..][..j];
        assert path[1..][j] == path[k];
    }
  }

  /** When the walk succeeds, no step of it fails. */
  lemma NotMissing(root: Element, path: seq<string>, k: nat)
    requires Descend(root, path).Some? && k < |path|
    ensures !MissingAt(root, path, k)
  {
    assert path == path[..k] + path[k..];
    DescendAppend(root, path[..k], path[k..]);
  }

  // ----- relationship flags -----

  const RelationshipPath: seq<string> := ["reportingOwner", "reportingOwnerRelationship"]

  /** The element naming each flag under `reportingOwnerRelationship`. */
  function FlagTag(r: Relationship): string {
    match r
    case DIRECTOR => "isDirector"
    case OFFICER => "isOfficer"
    case TENPERC => "isTenPercentOwner"
    case OTHER => "isOther"
  }

  /** The fixed order in which `get_relationship` reports the flags. */
  function Rank(r: Relationship): nat {
    match r
    case DIRECTOR => 0
    case OFFICER => 1
    case TENPERC => 2
    case OTHER => 3
  }

  /** A flag is set when its node exists and reads `1`. */
  predicate FlagSet(root: Element, r: Relationship) {
    match Lookup(root, RelationshipPath + [FlagTag(r)])
    case Some(n) => n.text == "1"
    case None => false
  }

  const AllFlags: seq<Relationship> := [DIRECTOR, OFFICER, TENPERC, OTHER]

  /** The flag `r` when it is set, and nothing otherwise. */
  function Flag(root: Element, r: Relationship): seq<Relationship> {
    if FlagSet(root, r) then [r] else []
  }

  /** The set flags among `fs`, in the order of `fs`. */
  function FlagsFrom(root: Element, fs: seq<Relationship>): seq<Relationship> {
    if fs == [] then [] else Flag(root, fs[0]) + FlagsFrom(root, fs[1..])
  }

  predicate RankOrdered(fs: seq<Relationship>) {
    forall i, j :: 0 <= i < j < |fs| ==> Rank(fs[i]) < Rank(fs[j])
  }

  /** Keeping the set flags keeps exactly those, in their order. */
  lemma FlagsFromKeeps(root: Element, fs: seq<Relationship>)
    requires RankOrdered(fs)
    ensures forall r :: r in FlagsFrom(root, fs) <==> r in fs && FlagSet(root, r)
    ensures RankOrdered(FlagsFrom(root, fs))
    ensures |FlagsFrom(root, fs)| <= |fs|
    ensures forall r :: r in FlagsFrom(root, fs) ==> exists i :: 0 <= i < |fs| && fs[i] == r
  {
    FlagsFromKept(root, fs);
    KeptKeeps(r => FlagSet(root, r), fs);
  }

  /** The members of `fs` that `isSet` accepts, in the order of `fs`. */
  function Kept(isSet: Relationship -> bool, fs: seq<Relationship>): (r: seq<Relationship>)
    ensures |r| <= |fs|
  {
    if fs == [] then [] else (if isSet(fs[0]) then [fs[0]] else []) + Kept(isSet, fs[1..])
  }

  lemma {:induction false} FlagsFromKept(root: Element, fs: seq<Relationship>)
    ensures FlagsFrom(root, fs) == Kept(r => FlagSet(root, r), fs)
  {
    if fs != [] {
      FlagsFromKept(root, fs[1..]);
    }
  }

  lemma KeptKeeps(isSet: Relationship -> bool, fs: seq<Relationship>)
    requires RankOrdered(fs)
    ensures forall r :: r in Kept(isSet, fs) <==> r in fs && isSet(r)
    ensures RankOrdered(Kept(isSet, fs))
    ensures |Kept(isSet, fs)| <= |fs|
    ensures forall r :: r in Kept(isSet, fs) ==> exists i :: 0 <= i < |fs| && fs[i] == r
  {
    KeptMembers(isSet, fs);
    KeptOrdered(isSet, fs);
    forall r | r in Kept(isSet, fs) ensures exists i :: 0 <= i < |fs| && fs[i] == r {
      var i := IndexOf(fs, r);
    }
  }

  lemma {:induction false} KeptMembers(isSet: Relationship -> bool, fs: seq<Relationship>)
    ensures forall r :: r in Kept(isSet, fs) <==> r in fs && isSet(r)
  {
    if fs != [] {
      var rest := fs[1..];
      KeptMembers(isSet, rest);
      assert fs == [fs[0]] + rest;
    }
  }

  lemma {:induction false} KeptOrdered(isSet: Relationship -> bool, fs: seq<Relationship>)
    requires RankOrdered(fs)
    ensures RankOrdered(Kept(isSet, fs))
  {
    if fs != [] {
      var rest := fs[1..];
      TailOrdered(fs);
      KeptOrdered(isSet, rest);
      var tail := Kept(isSet, rest);
      HeadBelowKept(isSet, fs);
      if isSet(fs[0]) {
        ConsOrdered(fs[0], tail);
        assert Kept(isSet, fs) == [fs[0]] + tail;
      } else {
        assert Kept(isSet, fs) == tail;
      }
    }
  }

  lemma TailOrdered(fs: seq<Relationship>)
    requires RankOrdered(fs) && fs != []
    ensures RankOrdered(fs[1..])
  {
    var rest := fs[1..];
    forall i, j | 0 <= i < j < |rest| ensures Rank(rest[i]) < Rank(rest[j]) {
      assert rest[i] == fs[i + 1] && rest[j] == fs[j + 1];
    }
  }

  /** The head of an ordered list ranks below every flag kept from its tail. */
  lemma HeadBelowKept(isSet: Relationship -> bool, fs: seq<Relationship>)
    requires RankOrdered(fs) && fs != []
    ensures forall r :: r in Kept(isSet, fs[1..]) ==> Rank(fs[0]) < Rank(r)
  {
    var rest := fs[1..];
    KeptMembers(isSet, rest);
    forall r | r in Kept(isSet, rest) ensures Rank(fs[0]) < Rank(r) {
      var i := IndexOf(rest, r);
      assert fs[i + 1] == r;
    }
  }

  /** A flag ranked below every flag of an ordered list can be put in front of it. */
  lemma ConsOrdered(x: Relationship, tail: seq<Relationship>)
    requires RankOrdered(tail)
    requires forall r :: r in tail ==> Rank(x) < Rank(r)
    ensures RankOrdered([x] + tail)
  {
    var all := [x] + tail;
    forall i, j | 0 <= i < j < |all| ensures Rank(all[i]) < Rank(all[j]) {
      assert all[j] == tail[j - 1] && all[j] in tail;
      if i > 0 {
        assert all[i] == tail[i - 1];
      }
    }
  }

  /**
   * The flags of a document: each one present exactly when it is set, in the
   * fixed order DIRECTOR, OFFICER, TENPERC, OTHER, so none twice and at most four.
   */
  function Relationships(root: Element): (rels: seq<Relationship>)
    ensures forall r :: r in rels <==> FlagSet(root, r)
    ensures RankOrdered(rels)
    ensures forall i, j :: 0 <= i < j < |rels| ==> rels[i] != rels[j]
    ensures |rels| <= 4
  {
    FlagsFromKeeps(root, AllFlags);
    forall r: Relationship ensures r in AllFlags {
      assert AllFlags[Rank(r)] == r;
    }
    FlagsFrom(root, AllFlags)
  }

  /** `XMLFiling::get_relationship`: test the four flags in order. */
  method GetRelationship(root: Element) returns (rels: seq<Relationship>)
    ensures rels == Relationships(root)
  {
    rels := [];
    var node := Traverse(root, RelationshipPath + [FlagTag(DIRECTOR)]);
    FlagTest(root, DIRECTOR, node);
    if TextOrDefault(node) == "1" {
      rels := rels + [DIRECTOR];
    }
    assert rels == Flag(root, DIRECTOR);
    node := Traverse(root, RelationshipPath + [FlagTag(OFFICER)]);
    FlagTest(root, OFFICER, node);
    if TextOrDefault(node) == "1" {
      rels := rels + [OFFICER];
    }
    assert rels == Flag(root, DIRECTOR) + Flag(root, OFFICER);
    node := Traverse(root, RelationshipPath + [FlagTag(TENPERC)]);
    FlagTest(root, TENPERC, node);
    if TextOrDefault(node) == "1" {
      rels := rels + [TENPERC];
    }
    assert rels == Flag(root, DIRECTOR) + Flag(root, OFFICER) + Flag(root, TENPERC);
    node := Traverse(root, RelationshipPath + [FlagTag(OTHER)]);
    FlagTest(root, OTHER, node);
    if TextOrDefault(node) == "1" {
      rels := rels + [OTHER];
    }
    FourFlags(root);
  }

  /** The test `get_relationship` makes on a looked-up node is `FlagSet`. */
  lemma FlagTest(root: Element, r: Relationship, node: Option<XmlNode>)
    requires node == Lookup(root, RelationshipPath + [FlagTag(r)])
    ensures (TextOrDefault(node) == "1") == FlagSet(root, r)
  {
  }

  /** `unwrap_or_default().text`. */
  function TextOrDefault(node: Option<XmlNode>): string {
    match node
    case Some(n) => n.text
    case None => EmptyNode.text
  }

  /** The four tests of `get_relationship`, one after the other. */
  lemma FourFlags(root: Element)
    ensures Relationships(root)
         == Flag(root, DIRECTOR) + Flag(root, OFFICER) + Flag(root, TENPERC) + Flag(root, OTHER)
  {
    FlagsFromFour(root, DIRECTOR, OFFICER, TENPERC, OTHER);
  }

  /** Keeping the set flags among four is testing them one after the other. */
  lemma FlagsFromFour(root: Element, p: Relationship, q: Relationship, r: Relationship, t: Relationship)
    ensures FlagsFrom(root, [p, q, r, t]) == Flag(root, p) + Flag(root, q) + Flag(root, r) + Flag(root, t)
  {
    var a, b, c, d := Flag(root, p), Flag(root, q), Flag(root, r), Flag(root, t);
    assert [p] + [q, r, t] == [p, q, r, t];
    assert [q] + [r, t] == [q, r, t];
    assert [r] + [t] == [r, t];
    assert [t] + [] == [t];
    FlagsFromCons(root, p, [q, r, t]);
    FlagsFromCons(root, q, [r, t]);
    FlagsFromCons(root, r, [t]);
    FlagsFromCons(root, t, []);
    RegroupFour(a, b, c, d);
  }

  lemma FlagsFromCons(root: Element, r: Relationship, rest: seq<Relationship>)
    ensures FlagsFrom(root, [r] + rest) == Flag(root, r) + FlagsFrom(root, rest)
  {
    assert ([r] + rest)[0] == r && ([r] + rest)[1..] == rest;
  }

  // ----- accession number and web address -----

  /** Ten digits, `-`, two digits, `-`, six digits, starting at `i`. */
  predicate AccessionAt(s: string, i: int) {
    0 <= i && i + 20 <= |s|
    && AllDigits(s[i..i + 10]) && s[i + 10] == '-'
    && AllDigits(s[i + 11..i + 13]) && s[i + 13] == '-'
    && AllDigits(s[i + 14..i + 20])
  }

  predicate IsAccession(a: string) {
    AccessionAt(a, 0) && |a| == 20
  }

  /** The leftmost position at or after `k` where an accession number starts. */
  function FindAccession(s: string, k: nat): (r: Option<nat>)
    ensures r.Some? ==> k <= r.value && AccessionAt(s, r.value)
    ensures r.Some? ==> forall j :: k <= j < r.value ==> !AccessionAt(s, j)
    ensures r.None? ==> forall j :: k <= j ==> !AccessionAt(s, j)
    decreases |s| - k
  {
    if k + 20 > |s| then None
    else if AccessionAt(s, k) then Some(k)
    else FindAccession(s, k + 1)
  }

  const NoAccession := "Url should have valid accession number"

  /**
   * `parse_access_num`: the leftmost match of `[0-9]{10}-[0-9]{2}-[0-9]{6}`
   * in the URL, or a panic when there is none.
   */
  function AccessNum(url: string): (r: Outcome<string>)
    ensures !r.Err?
    ensures r.Panic? <==> forall i :: !AccessionAt(url, i)
    ensures r.Panic? ==> r.reason == NoAccession
    ensures r.Ok? ==> IsAccession(r.value)
    ensures r.Ok? ==> exists i :: AccessionAt(url, i) && r.value == url[i..i + 20]
                              && forall j :: 0 <= j < i ==> !AccessionAt(url, j)
  {
    match FindAccession(url, 0)
    case None => Panic(NoAccession)
    case Some(i) =>
      AccessionCut(url, i);
      Ok(url[i..i + 20])
  }

  /** The twenty characters where an accession number starts are one. */
  lemma AccessionCut(url: string, i: int)
    requires AccessionAt(url, i)
    ensures IsAccession(url[i..i + 20])
  {
    var a := url[i..i + 20];
    SliceOfSlice(url, i, i + 20, 0, 10);
    SliceOfSlice(url, i, i + 20, 11, 13);
    SliceOfSlice(url, i, i + 20, 14, 20);
    assert a[10] == url[i + 10] && a[13] == url[i + 13];
  }


  /** The eighteen digits of an accession number, without its dashes. */
  function BareDigits(a: string): (r: string)
    requires IsAccession(a)
    ensures |r| == 18 && AllDigits(r)
  {
    var r := a[..10] + a[11..13] + a[14..];
    assert a[..10] == a[0..10] && a[14..] == a[14..20];
    assert forall k :: 0 <= k < 10 ==> r[k] == a[..10][k];
    assert forall k :: 10 <= k < 12 ==> r[k] == a[11..13][k - 10];
    assert forall k :: 12 <= k < 18 ==> r[k] == a[14..][k - 12];
    r
  }

  /** Putting the dashes back into the bare digits gives the accession number. */
  lemma BareDigitsRoundTrip(a: string)
    requires IsAccession(a)
    ensures BareDigits(a)[..10] + "-" + BareDigits(a)[10..12] + "-" + BareDigits(a)[12..] == a
  {
    var b := BareDigits(a);
    assert b[..10] == a[..10] && b[10..12] == a[11..13] && b[12..] == a[14..];
    assert a == a[..10] + [a[10]] + a[11..13] + [a[13]] + a[14..];
  }

  /** Removing every `-` from an accession number leaves its bare digits. */
  lemma DashesRemoved(a: string)
    requires IsAccession(a)
    ensures Replace(a, "-", "") == BareDigits(a)
  {
    var d10, d2, d6 := a[..10], a[11..13], a[14..20];
    assert a == d10 + "-" + d2 + "-" + d6;
    NoDash(d10);
    NoDash(d2);
    NoDash(d6);
    DropDashes(d10, d2, d6);
  }

  /** `replace("-", "")` on three dash-free pieces joined by dashes. */
  lemma DropDashes(d10: string, d2: string, d6: string)
    requires '-' !in d10 && '-' !in d2 && '-' !in d6
    ensures Replace(d10 + "-" + d2 + "-" + d6, "-", "") == d10 + d2 + d6
  {
    var s2 := d2 + ("-" + d6);
    assert d10 + "-" + d2 + "-" + d6 == d10 + ("-" + s2);
    calc {
      Replace(d10 + ("-" + s2), "-", "");
      { DropDash(d10, s2); }
      d10 + Replace(s2, "-", "");
      { DropDash(d2, d6); }
      d10 + (d2 + Replace(d6, "-", ""));
      { KeepDashFree(d6); }
      d10 + d2 + d6;
    }
  }

  /** A dash-free piece is kept and the dash after it dropped. */
  lemma DropDash(d: string, t: string)
    requires '-' !in d
    ensures Replace(d + ("-" + t), "-", "") == d + Replace(t, "-", "")
  {
    assert MarkedOnce("-", '-');
    ReplaceMarkerFreePrefix(d, "-" + t, "-", "", '-');
    ReplaceAtStart("-", t, "");
  }

  lemma KeepDashFree(d: string)
    requires '-' !in d
    ensures Replace(d, "-", "") == d
  {
    assert MarkedOnce("-", '-');
    assert d + [] == d;
    ReplaceMarkerFreePrefix(d, [], "-", "", '-');
  }

  lemma NoDash(ds: string)
    requires AllDigits(ds)
    ensures '-' !in ds
  {
    assert !IsDigit('-');
  }

  const WebUrlPrefix := "https://www.sec.gov/Archives/edgar/data/"

  /**
   * `get_web_url`: the filing's index page under the owner's CIK, addressed
   * by the accession number both without and with its dashes.
   */
  function WebUrl(url: string, ownerCik: string): (r: Outcome<string>)
    ensures r.Ok? <==> AccessNum(url).Ok?
    ensures r.Panic? ==> r == AccessNum(url)
    ensures r.Ok? ==> r.value == WebUrlPrefix + ownerCik + "/" + BareDigits(AccessNum(url).value)
                                 + "/" + AccessNum(url).value + "-index.html"
  {
    var a :- AccessNum(url);
    Ok(IndexPage(a, ownerCik))
  }

  /** The index page of the filing with accession number `a`. */
  function IndexPage(a: string, ownerCik: string): (r: string)
    requires IsAccession(a)
    ensures r == WebUrlPrefix + ownerCik + "/" + BareDigits(a) + "/" + a + "-index.html"
  {
    DashesRemoved(a);
    WebUrlPrefix + ownerCik + "/" + Replace(a, "-", "") + "/" + a + "-index.html"
  }

  // ----- extract_transactions -----

  /** The fields every record of one document shares. */
  datatype Header = Header(
    access_no: string, company_cik: string, owner_cik: string, form_type: string,
    company: string, symbol: string, owner: string, relationships: seq<Relationship>,
    form_date: Date, web_url: string)

  /** `traverse(..).unwrap()`: the node, or the panic of unwrapping `None`. */
  function Required(el: Element, path: seq<string>): (r: Outcome<XmlNode>)
    ensures !r.Err?
    ensures r.Ok? <==> Lookup(el, path).Some?
  {
    match Lookup(el, path)
    case Some(n) => Ok(n)
    case None => Panic(UnwrapNone)
  }

  /** `traverse(..).unwrap().text`. */
  function RequiredText(el: Element, path: seq<string>): (r: Outcome<string>)
    ensures !r.Err?
  {
    var n :- Required(el, path);
    Ok(n.text)
  }

  /** `traverse(..).unwrap().parse_num()`. */
  function RequiredNum(el: Element, path: seq<string>): (r: Outcome<real>)
    ensures !r.Err?
  {
    var n :- Required(el, path);
    Ok(ParseNum(n))
  }

  /** `traverse(..).unwrap().parse_date()`. */
  function RequiredDate(el: Element, path: seq<string>): (r: Outcome<Date>)
    ensures !r.Err?
    ensures r.Ok? ==> Valid(r.value)
  {
    var n :- Required(el, path);
    NodeDate(n)
  }

  /** The document-level fields, read in the order of the source, the first failure winning. */
  function ReadHeader(url: string, root: Element): (r: Outcome<Header>)
    ensures !r.Err?
    ensures AccessNum(url).Panic? ==> r == Panic(NoAccession)
    ensures r.Ok? ==> r.value.access_no == AccessNum(url).value
                      && r.value.web_url == WebUrl(url, r.value.owner_cik).value
                      && r.value.relationships == Relationships(root)
                      && Valid(r.value.form_date)
  {
    var access_no :- AccessNum(url);
    var company_cik :- RequiredText(root, ["issuer", "issuerCik"]);
    var owner_cik :- RequiredText(root, ["reportingOwner", "reportingOwnerId", "rptOwnerCik"]);
    var form_type :- RequiredText(root, ["documentType"]);
    var company :- RequiredText(root, ["issuer", "issuerName"]);
    var symbol :- RequiredText(root, ["issuer", "issuerTradingSymbol"]);
    var owner :- RequiredText(root, ["reportingOwner", "reportingOwnerId", "rptOwnerName"]);
    var relationships := Relationships(root);
    var form_date :- RequiredDate(root, ["periodOfReport"]);
    // `get_web_url` parses the same URL again, with the same result.
    var web_url := IndexPage(access_no, owner_cik);
    Ok(Header(access_no, company_cik, owner_cik, form_type, company, symbol, owner,
              relationships, form_date, web_url))
  }

  const TransactionTag := "nonDerivativeTransaction"
  const TablePath: seq<string> := ["nonDerivativeTable", TransactionTag]
  const NoTable := "Filing does not have a non derivative table"

  /** The record of one `nonDerivativeTransaction` element. */
  function ReadRecord(h: Header, url: string, child: Element): (r: Outcome<FilingTransaction>)
    ensures !r.Err?
    ensures r.Ok? ==> Carries(h, url, r.value)
  {
    var shares_traded :- RequiredNum(child, ["transactionAmounts", "transactionShares"]);
    var avg_price :- RequiredNum(child, ["transactionAmounts", "transactionPricePerShare"]);
    var shares_owned :- RequiredNum(child, ["postTransactionAmounts", "sharesOwnedFollowingTransaction"]);
    var trans_date :- RequiredDate(child, ["transactionDate"]);
    var action_code :- RequiredText(child, ["transactionAmounts", "transactionAcquiredDisposedCode"]);
    var ownership_code :- RequiredText(child, ["ownershipNature", "directOrIndirectOwnership"]);
    var trans_code :- RequiredText(child, ["transactionCoding", "transactionCode"]);
    Ok(NewRecord(h, url, shares_traded, avg_price, shares_owned, trans_date,
                 action_code, ownership_code, trans_code))
  }

  /** The `FilingTransaction` literal of `extract_transactions`. */
  function NewRecord(h: Header, url: string, shares_traded: real, avg_price: real,
                     shares_owned: real, trans_date: Date, action_code: string,
                     ownership_code: string, trans_code: string): (t: FilingTransaction)
    ensures Carries(h, url, t)
    ensures t.shares_traded == shares_traded && t.avg_price == avg_price
    ensures t.shares_owned == shares_owned && t.trans_date == trans_date
    ensures t.action_code == action_code && t.ownership_code == ownership_code
    ensures t.trans_code == trans_code
  {
    FilingTransaction(h.web_url, url, h.access_no, h.form_date, h.company_cik, h.owner_cik,
                      h.form_type, h.company, h.symbol, h.owner, shares_traded, avg_price,
                      shares_traded * avg_price, shares_owned, trans_date, h.relationships,
                      action_code, ownership_code, trans_code)
  }

  /**
   * A record bears the fields of the document it came from, and its amount
   * is the number of shares traded times the price per share.
   */
  predicate Carries(h: Header, url: string, t: FilingTransaction) {
    t.web_url == h.web_url && t.form_url == url && t.access_no == h.access_no
    && t.form_date == h.form_date && t.company_cik == h.company_cik
    && t.owner_cik == h.owner_cik && t.form_type == h.form_type
    && t.company == h.company && t.symbol == h.symbol && t.owner == h.owner
    && t.relationship == h.relationships
    && t.amount == t.shares_traded * t.avg_price
  }

  /** The `nonDerivativeTransaction` elements among `cs`, in order. */
  function TransactionChildren(cs: seq<Element>): (ts: seq<Element>)
    ensures |ts| <= |cs|
    ensures forall t :: t in ts ==> t in cs && t.name == TransactionTag
  {
    if cs == [] then []
    else (if cs[0].name == TransactionTag then [cs[0]] else []) + TransactionChildren(cs[1..])
  }

  /** The records of the transaction elements among `cs`, the first failure winning. */
  function ReadRecords(h: Header, url: string, cs: seq<Element>): (r: Outcome<seq<FilingTransaction>>)
    ensures !r.Err?
  {
    if cs == [] then Ok([])
    else if cs[0].name != TransactionTag then ReadRecords(h, url, cs[1..])
    else
      var t :- ReadRecord(h, url, cs[0]);
      var rest :- ReadRecords(h, url, cs[1..]);
      Ok([t] + rest)
  }

  /** What `extract_transactions` returns for the document `xml` found at `url`. */
  function Extraction(url: string, xml: string, parse: string -> Option<Element>): Outcome<seq<FilingTransaction>> {
    match parse(xml)
    case None => Panic(UnwrapErr)
    case Some(root) =>
      var h :- ReadHeader(url, root);
      if Lookup(root, TablePath).None? then Err(NoTable)
      else ReadRecords(h, url, TableOf(root).children)
  }

  /** `ok` followed by the records in `o`, or the failure `o` holds. */
  function Prefixed(ok: seq<FilingTransaction>, o: Outcome<seq<FilingTransaction>>): Outcome<seq<FilingTransaction>> {
    if o.Ok? then Ok(ok + o.value) else o
  }

  /**
   * `XMLFiling::extract_transactions`: read the document-level fields, then
   * push one record per transaction element of the first table.
   */
  method ExtractTransactions(url: string, xml: string, parse: string -> Option<Element>)
    returns (r: Outcome<seq<FilingTransaction>>)
    ensures r == Extraction(url, xml, parse)
  {
    var parsed := parse(xml);
    if parsed.None? {
      return Panic(UnwrapErr);
    }
    var root := parsed.value;
    var header := ReadHeader(url, root);
    if header.IsFailure() {
      return header.PropagateFailure();
    }
    var h := header.value;
    var present := Traverse(root, TablePath);
    if present.None? {
      return Err(NoTable);
    }
    var cs := TableOf(root).children;
    ExtractionOfTable(url, xml, parse, h);
    var transactions: seq<FilingTransaction> := [];
    var i := 0;
    assert cs[0..] == cs;
    PrefixedNothing(ReadRecords(h, url, cs));
    while i < |cs|
      invariant 0 <= i <= |cs|
      invariant ReadRecords(h, url, cs) == Prefixed(transactions, ReadRecords(h, url, cs[i..]))
    {
      ReadRecordsStep(h, url, cs[i..]);
      assert cs[i..][1..] == cs[i + 1..];
      if cs[i].name == TransactionTag {
        var record := ReadRecord(h, url, cs[i]);
        if record.IsFailure() {
          return record.PropagateFailure();
        }
        PrefixedMore(transactions, record.value, ReadRecords(h, url, cs[i + 1..]));
        transactions := transactions + [record.value];
      }
      i := i + 1;
    }
    assert cs[i..] == [];
    assert ReadRecords(h, url, cs[i..]) == Ok([]);
    assert transactions + [] == transactions;
    return Ok(transactions);
  }

  /** `get_child("nonDerivativeTable").expect(..)`, once the path through it is known to exist. */
  function TableOf(root: Element): Element
    requires Lookup(root, TablePath).Some?
  {
    assert GetChild(root, TablePath[0]).Some?;
    GetChild(root, TablePath[0]).value
  }

  /** Once the header is read and the table found, the result is that of reading the table. */
  lemma ExtractionOfTable(url: string, xml: string, parse: string -> Option<Element>, h: Header)
    requires parse(xml).Some? && ReadHeader(url, parse(xml).value) == Ok(h)
    requires Lookup(parse(xml).value, TablePath).Some?
    ensures Extraction(url, xml, parse) == ReadRecords(h, url, TableOf(parse(xml).value).children)
  {
  }

  lemma PrefixedNothing(o: Outcome<seq<FilingTransaction>>)
    ensures Prefixed([], o) == o
  {
    if o.Ok? { assert [] + o.value == o.value; }
  }

  lemma PrefixedMore(t: seq<FilingTransaction>, x: FilingTransaction, o: Outcome<seq<FilingTransaction>>)
    ensures Prefixed(t, Prefixed([x], o)) == Prefixed(t + [x], o)
  {
    if o.Ok? { assert t + ([x] + o.value) == t + [x] + o.value; }
  }

  /** One step of `ReadRecords` over a non-empty list of children. */
  lemma ReadRecordsStep(h: Header, url: string, cs: seq<Element>)
    requires cs != []
    ensures cs[0].name != TransactionTag ==> ReadRecords(h, url, cs) == ReadRecords(h, url, cs[1..])
    ensures cs[0].name == TransactionTag && ReadRecord(h, url, cs[0]).IsFailure() ==>
              ReadRecords(h, url, cs) == ReadRecord(h, url, cs[0]).PropagateFailure()
    ensures cs[0].name == TransactionTag && ReadRecord(h, url, cs[0]).Ok? ==>
              ReadRecords(h, url, cs) == Prefixed([ReadRecord(h, url, cs[0]).value], ReadRecords(h, url, cs[1..]))
  {
  }

  // ----- what extract_transactions promises -----

  /**
   * The records are exactly those of the transaction elements, one each and
   * in document order, when every one of them can be read.
   */
  lemma ReadRecordsOnePerChild(h: Header, url: string, cs: seq<Element>)
    ensures ReadRecords(h, url, cs).Ok?
        <==> forall t :: t in TransactionChildren(cs) ==> ReadRecord(h, url, t).Ok?
    ensures ReadRecords(h, url, cs).Ok? ==>
              |ReadRecords(h, url, cs).value| == |TransactionChildren(cs)|
              && forall k :: 0 <= k < |TransactionChildren(cs)| ==>
                   ReadRecord(h, url, TransactionChildren(cs)[k]) == Ok(ReadRecords(h, url, cs).value[k])
  {
    ReadRecordsOk(h, url, cs);
    if ReadRecords(h, url, cs).Ok? {
      ReadRecordsValues(h, url, cs);
    }
  }

  lemma ReadRecordsOk(h: Header, url: string, cs: seq<Element>)
    ensures ReadRecords(h, url, cs).Ok?
        <==> forall t :: t in TransactionChildren(cs) ==> ReadRecord(h, url, t).Ok?
  {
    ReadRecordsEach(h, url, cs);
    ReadEachOk(e => ReadRecord(h, url, e), cs);
  }

  lemma ReadRecordsValues(h: Header, url: string, cs: seq<Element>)
    requires ReadRecords(h, url, cs).Ok?
    ensures |ReadRecords(h, url, cs).value| == |TransactionChildren(cs)|
    ensures forall k :: 0 <= k < |TransactionChildren(cs)| ==>
              ReadRecord(h, url, TransactionChildren(cs)[k]) == Ok(ReadRecords(h, url, cs).value[k])
  {
    ReadRecordsEach(h, url, cs);
    ReadEachValues(e => ReadRecord(h, url, e), cs);
  }

  /** `ReadRecords` with the record reader given as a parameter. */
  function ReadEach(read: Element -> Outcome<FilingTransaction>, cs: seq<Element>): Outcome<seq<FilingTransaction>> {
    if cs == [] then Ok([])
    else if cs[0].name != TransactionTag then ReadEach(read, cs[1..])
    else
      var t :- read(cs[0]);
      var rest :- ReadEach(read, cs[1..]);
      Ok([t] + rest)
  }

  lemma {:induction false} ReadRecordsEach(h: Header, url: string, cs: seq<Element>)
    ensures ReadRecords(h, url, cs) == ReadEach(e => ReadRecord(h, url, e), cs)
  {
    if cs != [] {
      ReadRecordsEach(h, url, cs[1..]);
    }
  }

  lemma {:induction false} ReadEachOk(read: Element -> Outcome<FilingTransaction>, cs: seq<Element>)
    ensures ReadEach(read, cs).Ok? <==> forall t :: t in TransactionChildren(cs) ==> read(t).Ok?
  {
    if cs != [] {
      ReadEachOk(read, cs[1..]);
      var ts := TransactionChildren(cs[1..]);
      if cs[0].name == TransactionTag {
        assert TransactionChildren(cs) == [cs[0]] + ts;
        assert cs[0] in TransactionChildren(cs);
      } else {
        assert TransactionChildren(cs) == ts;
      }
    }
  }

  lemma {:induction false} ReadEachValues(read: Element -> Outcome<FilingTransaction>, cs: seq<Element>)
    requires ReadEach(read, cs).Ok?
    ensures |ReadEach(read, cs).value| == |TransactionChildren(cs)|
    ensures forall k :: 0 <= k < |TransactionChildren(cs)| ==>
              read(TransactionChildren(cs)[k]) == Ok(ReadEach(read, cs).value[k])
  {
    if cs != [] {
      var ts := TransactionChildren(cs[1..]);
      ReadEachValues(read, cs[1..]);
      if cs[0].name == TransactionTag {
        var all := ReadEach(read, cs).value;
        var rest := ReadEach(read, cs[1..]).value;
        assert all == [read(cs[0]).value] + rest;
        assert TransactionChildren(cs) == [cs[0]] + ts;
        forall k | 0 <= k < |TransactionChildren(cs)|
          ensures read(TransactionChildren(cs)[k]) == Ok(all[k])
        {
          if k > 0 {
            assert TransactionChildren(cs)[k] == ts[k - 1];
            assert all[k] == rest[k - 1];
          }
        }
      } else {
        assert TransactionChildren(cs) == ts;
      }
    }
  }

  /** Every record of a document carries that document's fields and its own amount. */
  lemma {:induction false} ReadRecordsShareHeader(h: Header, url: string, cs: seq<Element>)
    requires ReadRecords(h, url, cs).Ok?
    ensures forall t :: t in ReadRecords(h, url, cs).value ==> Carries(h, url, t)
  {
    if cs != [] {
      ReadRecordsShareHeader(h, url, cs[1..]);
    }
  }

  /**
   * `extract_transactions` answers `Err` exactly when the document and its
   * fields are read but it has no `nonDerivativeTable/nonDerivativeTransaction`;
   * every other failure is a panic.
   */
  lemma ExtractionErr(url: string, xml: string, parse: string -> Option<Element>)
    ensures Extraction(url, xml, parse).Err?
        <==> parse(xml).Some? && ReadHeader(url, parse(xml).value).Ok?
             && Lookup(parse(xml).value, TablePath).None?
    ensures Extraction(url, xml, parse).Err? ==> Extraction(url, xml, parse).error == NoTable
  {
  }

  /**
   * A document that is read completely yields one record per transaction
   * element of its first table, in order, all sharing the document's fields.
   */
  lemma ExtractionRecords(url: string, xml: string, parse: string -> Option<Element>)
    requires Extraction(url, xml, parse).Ok?
    ensures parse(xml).Some? && ReadHeader(url, parse(xml).value).Ok?
    ensures Lookup(parse(xml).value, TablePath).Some?
    ensures var root := parse(xml).value;
            var ts := TransactionChildren(TableOf(root).children);
            var txs := Extraction(url, xml, parse).value;
            |txs| == |ts|
            && (forall k :: 0 <= k < |ts| ==> ReadRecord(ReadHeader(url, root).value, url, ts[k]) == Ok(txs[k]))
            && (forall t :: t in txs ==>
                  t.form_url == url && t.access_no == AccessNum(url).value
                  && t.relationship == Relationships(root)
                  && t.web_url == WebUrl(url, t.owner_cik).value
                  && t.amount == t.shares_traded * t.avg_price)
  {
    var root := parse(xml).value;
    var h := ReadHeader(url, root).value;
    ExtractionOfTable(url, xml, parse, h);
    var cs := TableOf(root).children;
    ReadRecordsOnePerChild(h, url, cs);
    ReadRecordsShareHeader(h, url, cs);
  }
}
