/**
 * Cutting the ownership document out of a filing's full text and handing
 * it to the transaction extractor.
 */
module FilingDoc {
  import opened Wrappers
  import opened Strings
  import opened Models
  import opened AtomFilings

  const Decl := "<?xml version=\"1.0\"?>"
  const Close := "</ownershipDocument>"
  /** The opening tag without a namespace declaration... */
  const Bare := "<ownershipDocument>"
  /** ...and with the empty default namespace that replaces it. */
  const Tagged := "<ownershipDocument xmlns=\"\">"
  const NoMatch := "XML regex match failed"

  /** Some declaration is followed, after its end, by a closing tag. */
  ghost predicate HasDocument(s: string) {
    exists i, j :: OccursAt(s, Decl, i) && OccursAt(s, Close, j) && i + |Decl| <= j
  }

  /** `i` is the leftmost declaration and `j` the rightmost closing tag, after it. */
  ghost predicate IsWindow(s: string, i: nat, j: nat) {
    Spans(s, Decl, Close, i, j)
  }

  /** `i` is the leftmost `open` and `j` the rightmost `close`, after it. */
  ghost predicate Spans(s: string, open: string, close: string, i: nat, j: nat) {
    OccursAt(s, open, i) && (forall k :: 0 <= k < i ==> !OccursAt(s, open, k))
    && OccursAt(s, close, j) && (forall k :: j < k ==> !OccursAt(s, close, k))
    && i + |open| <= j
  }

  lemma FoundSpan(s: string, open: string, close: string, i: nat, j: nat)
    requires FindFirst(s, open) == Some(i) && FindLast(s, close) == Some(j)
    requires i + |open| <= j
    ensures Spans(s, open, close, i, j)
  {
  }

  /**
   * `FilingDoc::extract_xml`: the match of
   * `<\?xml version="1\.0"\?>[\W\S]*</ownershipDocument>` — since
   * `[\W\S]` is any character and `*` is greedy, it runs from the leftmost
   * declaration to the last closing tag — with every bare opening tag given
   * the empty namespace; it panics when there is no match.
   */
  function ExtractXml(s: string): (r: Outcome<string>)
    ensures !r.Err?
    ensures r.Panic? ==> r.reason == NoMatch
  {
    match FindFirst(s, Decl)
    case None => Panic(NoMatch)
    case Some(i) =>
      match FindLast(s, Close)
      case None => Panic(NoMatch)
      case Some(j) =>
        if i + |Decl| <= j then Ok(Replace(s[i..j + |Close|], Bare, Tagged))
        else Panic(NoMatch)
  }

  /** A successful extraction is the window from the leftmost declaration to the last closing tag. */
  lemma ExtractXmlWindow(s: string) returns (i: nat, j: nat)
    requires ExtractXml(s).Ok?
    ensures IsWindow(s, i, j)
    ensures ExtractXml(s).value == Replace(s[i..j + |Close|], Bare, Tagged)
  {
    i := FindFirst(s, Decl).value;
    j := FindLast(s, Close).value;
    assert i + |Decl| <= j;
    FoundSpan(s, Decl, Close, i, j);
  }

  /** `extract_xml` panics exactly when no declaration is followed by a closing tag. */
  lemma ExtractXmlPanics(s: string)
    ensures ExtractXml(s).Panic? <==> !HasDocument(s)
  {
    match FindFirst(s, Decl)
    case None =>
    case Some(i) =>
      match FindLast(s, Close)
      case None =>
      case Some(j) =>
        if i + |Decl| <= j {
        } else {
          forall a, b | OccursAt(s, Decl, a) && OccursAt(s, Close, b) ensures b < a + |Decl| {
            assert a >= i;
            assert b <= j;
          }
        }
  }

  lemma TagsMarked()
    ensures MarkedOnce(Bare, '<') && MarkedOnce(Tagged, '<')
    ensures MarkedOnce(Decl, '<') && MarkedOnce(Close, '<')
    ensures |Tagged| >= |Bare| && Tagged[..|Bare|] != Bare
    ensures |Decl| >= |Bare| && Decl[..|Bare|] != Bare
    ensures |Close| >= |Bare| && Close[..|Bare|] != Bare
  {
    BareMarked();
    TaggedMarked();
    DeclMarked();
    CloseMarked();
    NotBare(Tagged, 18);
    NotBare(Decl, 1);
    NotBare(Close, 1);
  }

  /** Each tag holds `<` only at its start. */
  lemma BareMarked()
    ensures MarkedOnce(Bare, '<')
  {
    forall k | 1 <= k < |Bare| ensures Bare[k] != '<' {}
  }

  lemma TaggedMarked()
    ensures MarkedOnce(Tagged, '<')
  {
    forall k | 1 <= k < |Tagged| ensures Tagged[k] != '<' {}
  }

  lemma DeclMarked()
    ensures MarkedOnce(Decl, '<')
  {
    forall k | 1 <= k < |Decl| ensures Decl[k] != '<' {}
  }

  lemma CloseMarked()
    ensures MarkedOnce(Close, '<')
  {
    forall k | 1 <= k < |Close| ensures Close[k] != '<' {}
  }

  /** A tag that differs from the bare opening tag at `k` does not start with it. */
  lemma NotBare(tag: string, k: nat)
    requires k < |Bare| <= |tag| && tag[k] != Bare[k]
    ensures tag[..|Bare|] != Bare
  {
    assert tag[..|Bare|][k] == tag[k];
  }

  /** The output holds no bare opening tag. */
  lemma ExtractXmlNoBareTag(s: string)
    requires ExtractXml(s).Ok?
    ensures forall k :: !OccursAt(ExtractXml(s).value, Bare, k)
  {
    TagsMarked();
    var i, j := ExtractXmlWindow(s);
    ReplaceLeavesNoPattern(s[i..j + |Close|], Bare, Tagged, '<');
  }

  /** Replacing inside a framed text leaves the declaration and the closing tag alone. */
  lemma ReplaceFramed(mid: string)
    ensures Replace(Decl + mid + Close, Bare, Tagged) == Decl + Replace(mid, Bare, Tagged) + Close
  {
    TagsMarked();
    ReplaceBetween(Decl, mid, Close, Bare, Tagged, '<');
  }

  /** Replacing inside a text framed by two tags that start with the marker but not with the pattern. */
  lemma ReplaceBetween(u: string, mid: string, v: string, pat: string, rep: string, m: char)
    requires MarkedOnce(pat, m) && MarkedOnce(u, m) && MarkedOnce(v, m)
    requires |u| >= |pat| && u[..|pat|] != pat
    requires |v| >= |pat| && v[..|pat|] != pat
    ensures Replace(u + mid + v, pat, rep) == u + Replace(mid, pat, rep) + v
  {
    var r := Replace(mid, pat, rep);
    calc {
      Replace(u + mid + v, pat, rep);
    == { assert u + mid + v == u + (mid + v); }
      Replace(u + (mid + v), pat, rep);
    == { ReplaceMarkedPrefix(u, mid + v, pat, rep, m); }
      u + Replace(mid + v, pat, rep);
    == { ReplaceSplitAtMarker(mid, v, pat, rep, m); ReplaceTagAlone(v, pat, rep, m); }
      u + (r + v);
    == 
      u + r + v;
    }
  }

  /** A tag that starts with the marker but not with the pattern is left as it is. */
  lemma ReplaceTagAlone(v: string, pat: string, rep: string, m: char)
    requires MarkedOnce(pat, m) && MarkedOnce(v, m)
    requires |v| >= |pat| && v[..|pat|] != pat
    ensures Replace(v, pat, rep) == v
  {
    assert v + [] == v;
    ReplaceMarkedPrefix(v, [], pat, rep, m);
    assert Replace([], pat, rep) == [];
  }

  /** A window is the declaration, what lies between, and the closing tag. */
  lemma WindowFramed(s: string, i: nat, j: nat)
    requires IsWindow(s, i, j)
    ensures s[i..j + |Close|] == Decl + s[i + |Decl|..j] + Close
  {
    assert s[i..i + |Decl|] == Decl;
    assert s[j..j + |Close|] == Close;
  }

  /** The output keeps the declaration and the closing tag at its two ends. */
  lemma ExtractXmlShape(s: string)
    requires ExtractXml(s).Ok?
    ensures exists mid :: ExtractXml(s).value == Decl + Replace(mid, Bare, Tagged) + Close
  {
    var i, j := ExtractXmlWindow(s);
    WindowFramed(s, i, j);
    ReplaceFramed(s[i + |Decl|..j]);
  }

  /** A text that starts with the declaration and ends with the closing tag is a whole window. */
  lemma WholeWindow(o: string, m: string)
    requires o == Decl + m + Close
    ensures IsWindow(o, 0, |o| - |Close|)
  {
    assert o[0..|Decl|] == Decl;
    assert o[|o| - |Close|..|o|] == Close;
  }

  /** `extract_xml` leaves its own output unchanged. */
  lemma ExtractXmlIdempotent(s: string)
    requires ExtractXml(s).Ok?
    ensures ExtractXml(ExtractXml(s).value) == ExtractXml(s)
  {
    var o := ExtractXml(s).value;
    ExtractXmlShape(s);
    var mid :| o == Decl + Replace(mid, Bare, Tagged) + Close;
    WholeWindow(o, Replace(mid, Bare, Tagged));
    var j := |o| - |Close|;
    assert FindFirst(o, Decl) == Some(0);
    assert FindLast(o, Close) == Some(j);
    assert o[0..j + |Close|] == o;
    ExtractXmlNoBareTag(s);
    ReplaceAbsent(o, Bare, Tagged);
  }

  /**
   * `FilingDoc::new`: extract the document, extract again from the result,
   * and read the transactions of what remains.
   */
  function NewFilingDoc(url: string, content: string, parse: string -> Option<Element>): (r: Outcome<seq<FilingTransaction>>)
    ensures ExtractXml(content).Panic? ==> r == Panic(NoMatch)
  {
    var once :- ExtractXml(content);
    var twice :- ExtractXml(once);
    Extraction(url, twice, parse)
  }

  /** Extracting twice is extracting once: `new` reads the document cut out of the content. */
  lemma NewFilingDocExtractsOnce(url: string, content: string, parse: string -> Option<Element>)
    ensures ExtractXml(content).Ok? ==> NewFilingDoc(url, content, parse) == Extraction(url, ExtractXml(content).value, parse)
  {
    if ExtractXml(content).Ok? {
      ExtractXmlIdempotent(content);
    }
  }
}
