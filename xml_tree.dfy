/** The parsed document as the extractor sees it, and the fixed location path
    `/folder/folder[@name='calculations']/folder[@name='calculation']`
    (section 2 of the W3C XPath 1.0 Recommendation) walked in document order. */
module XmlTree {

  datatype Attribute = Attribute(name: string, value: string)

  /** An element node: its tag, its attributes in document order and its
      element children in document order. */
  datatype Element = Element(tag: string, attributes: seq<Attribute>, children: seq<Element>)

  /** What loading a file yields: a parse error (an `XmlException`) or the
      document element. */
  datatype LoadResult = ParseError | Loaded(root: Element)

  /** The value of the last attribute called `name`, or "" when there is none:
      what a scan over the attributes that overwrites on every match leaves. */
  function AttributeValue(attrs: seq<Attribute>, name: string): string
  {
    if |attrs| == 0 then ""
    else if attrs[|attrs| - 1].name == name then attrs[|attrs| - 1].value
    else AttributeValue(attrs[..|attrs| - 1], name)
  }

  /** Attribute names are unique on a well-formed XML element. */
  ghost predicate UniqueNames(attrs: seq<Attribute>)
  {
    forall i, j :: 0 <= i < j < |attrs| ==> attrs[i].name != attrs[j].name
  }

  /** On a well-formed element the lookup finds the one attribute of that name. */
  lemma {:induction false} AttributeValueOfUnique(attrs: seq<Attribute>, k: nat)
    requires UniqueNames(attrs) && k < |attrs|
    ensures AttributeValue(attrs, attrs[k].name) == attrs[k].value
  {
    if k < |attrs| - 1 {
      assert attrs[|attrs| - 1].name != attrs[k].name;
      var init := attrs[..|attrs| - 1];
      assert init[k] == attrs[k];
      AttributeValueOfUnique(init, k);
    }
  }

  /** An attribute that is absent reads as "". */
  lemma {:induction false} AttributeValueOfAbsent(attrs: seq<Attribute>, name: string)
    requires forall i :: 0 <= i < |attrs| ==> attrs[i].name != name
    ensures AttributeValue(attrs, name) == ""
  {
    if |attrs| > 0 {
      AttributeValueOfAbsent(attrs[..|attrs| - 1], name);
    }
  }

  /** The step `folder[@name='<name>']`. */
  predicate IsFolder(e: Element, name: string)
  {
    e.tag == "folder" && AttributeValue(e.attributes, "name") == name
  }

  /** The elements of `elems` that the step `folder[@name='<name>']` keeps, in order. */
  function FoldersNamed(elems: seq<Element>, name: string): (r: seq<Element>)
    ensures |r| <= |elems|
    ensures forall e :: e in r <==> e in elems && IsFolder(e, name)
  {
    if |elems| == 0 then []
    else
      var init := FoldersNamed(elems[..|elems| - 1], name);
      var last := elems[|elems| - 1];
      assert elems == elems[..|elems| - 1] + [last];
      if IsFolder(last, name) then init + [last] else init
  }

  /** The calculation folders under each of `sections`, section by section. */
  function CalculationsUnder(sections: seq<Element>): (r: seq<Element>)
    ensures forall e :: e in r ==> IsFolder(e, "calculation")
  {
    if |sections| == 0 then []
    else CalculationsUnder(sections[..|sections| - 1])
         + FoldersNamed(sections[|sections| - 1].children, "calculation")
  }

  /** The node set of the location path, in document order. */
  function SelectCalculations(root: Element): (r: seq<Element>)
    ensures forall e :: e in r ==> IsFolder(e, "calculation")
  {
    if root.tag == "folder" then CalculationsUnder(FoldersNamed(root.children, "calculations")) else []
  }

  lemma {:induction false} CalculationsUnderMembers(sections: seq<Element>, e: Element)
    ensures e in CalculationsUnder(sections)
        <==> exists s :: s in sections && e in s.children && IsFolder(e, "calculation")
  {
    if |sections| > 0 {
      var init, last := sections[..|sections| - 1], sections[|sections| - 1];
      assert sections == init + [last];
      CalculationsUnderMembers(init, e);
      if e in CalculationsUnder(sections) && e !in CalculationsUnder(init) {
        assert e in last.children && IsFolder(e, "calculation");
      }
    }
  }

  /** An element is selected exactly when it is a `calculation` folder that is
      a child of a `calculations` folder that is a child of a `folder`
      document element. */
  lemma SelectCalculationsMembers(root: Element, e: Element)
    ensures e in SelectCalculations(root)
        <==> root.tag == "folder"
             && exists s :: s in root.children && IsFolder(s, "calculations")
                            && e in s.children && IsFolder(e, "calculation")
  {
    if root.tag == "folder" {
      var sections := FoldersNamed(root.children, "calculations");
      CalculationsUnderMembers(sections, e);
    }
  }

  lemma {:induction false} FoldersNamedAppend(a: seq<Element>, b: seq<Element>, name: string)
    ensures FoldersNamed(a + b, name) == FoldersNamed(a, name) + FoldersNamed(b, name)
  {
    if |b| > 0 {
      var init := b[..|b| - 1];
      assert (a + b)[..|a + b| - 1] == a + init;
      FoldersNamedAppend(a, init, name);
    } else {
      assert a + b == a;
    }
  }

  lemma {:induction false} CalculationsUnderAppend(a: seq<Element>, b: seq<Element>)
    ensures CalculationsUnder(a + b) == CalculationsUnder(a) + CalculationsUnder(b)
  {
    if |b| > 0 {
      var init := b[..|b| - 1];
      assert (a + b)[..|a + b| - 1] == a + init;
      CalculationsUnderAppend(a, init);
    } else {
      assert a + b == a;
    }
  }

  /** Document order: the calculations found under the children `a + b` of the
      document element are those found under `a` followed by those under `b`. */
  lemma SelectCalculationsAppend(tag: string, attrs: seq<Attribute>, a: seq<Element>, b: seq<Element>)
    requires tag == "folder"
    ensures SelectCalculations(Element(tag, attrs, a + b))
         == SelectCalculations(Element(tag, attrs, a)) + SelectCalculations(Element(tag, attrs, b))
  {
    FoldersNamedAppend(a, b, "calculations");
    CalculationsUnderAppend(FoldersNamed(a, "calculations"), FoldersNamed(b, "calculations"));
  }
}
