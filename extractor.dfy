/** The calculation extractor: the operator table, the decoding of one
    calculation folder, and the filling of the slot array `aCalc`. */
module Extractor {
  import opened Wrappers
  import opened CSharpInt
  import opened XmlTree

  datatype Op = Add | Subtract | Multiply | Divide | Mod

  /** One decoded calculation: an operator and its 32-bit operand. */
  datatype Calc = Calc(op: Op, num: Int32)

  /** The value of a slot of `aCalc` that no valid folder filled. */
  const DefaultCalc: Calc := Calc(Add, 0)

  /** The key under which the operator table lists `op`. */
  function OpName(op: Op): string
  {
    match op
    case Add => "add"
    case Subtract => "subtract"
    case Multiply => "multiply"
    case Divide => "divide"
    case Mod => "mod"
  }

  /** The operator table: an exact, case-sensitive lookup of the five keys. */
  function OpOf(key: string): (r: Option<Op>)
    ensures r.Some? <==> key in {"add", "subtract", "multiply", "divide", "mod"}
    ensures r.Some? ==> OpName(r.value) == key
  {
    if key == "add" then Some(Add)
    else if key == "subtract" then Some(Subtract)
    else if key == "multiply" then Some(Multiply)
    else if key == "divide" then Some(Divide)
    else if key == "mod" then Some(Mod)
    else None
  }

  /** Every operator is found under its own key. */
  lemma OpOfName(op: Op)
    ensures OpOf(OpName(op)) == Some(op)
  {
  }

  // ---------------------------------------------------------------------------
  // Specification of one calculation folder
  // ---------------------------------------------------------------------------

  /** The `value`s of the children whose `name` is `key` and whose `value` is
      not empty, in document order. Children with an empty or missing `name`
      or `value` never count. */
  function CountedValues(children: seq<Element>, key: string): seq<string>
  {
    if |children| == 0 then []
    else
      var init := CountedValues(children[..|children| - 1], key);
      var c := children[|children| - 1];
      var name, value := AttributeValue(c.attributes, "name"), AttributeValue(c.attributes, "value");
      if name == key && value != "" then init + [value] else init
  }

  /** A counted child always carries a non-empty value. */
  lemma {:induction false} CountedValuesNonEmpty(children: seq<Element>, key: string)
    ensures var vs := CountedValues(children, key);
            |vs| <= |children| && forall i :: 0 <= i < |vs| ==> vs[i] != ""
  {
    if |children| > 0 {
      CountedValuesNonEmpty(children[..|children| - 1], key);
    }
  }

  /** What one more child adds to the counted values of a prefix. */
  lemma CountedValuesStep(children: seq<Element>, k: nat, key: string)
    requires k < |children|
    ensures var name := AttributeValue(children[k].attributes, "name");
            var value := AttributeValue(children[k].attributes, "value");
            CountedValues(children[..k + 1], key)
              == CountedValues(children[..k], key) + if name == key && value != "" then [value] else []
  {
    assert children[..k + 1][..k] == children[..k];
  }

  function LastOrEmpty(vs: seq<string>): string
  {
    if |vs| == 0 then "" else vs[|vs| - 1]
  }

  /** A folder yields a calculation exactly when it has one counted `operand`
      child and one counted `mod` child, the operand names a known operator
      and the mod parses as a 32-bit integer. */
  function DecodeFolder(folder: Element): Option<Calc>
  {
    var ops, mods := CountedValues(folder.children, "operand"), CountedValues(folder.children, "mod");
    if |ops| == 1 && |mods| == 1 && OpOf(ops[0]).Some? && ParseInt32(mods[0]).Some? then
      Some(Calc(OpOf(ops[0]).value, ParseInt32(mods[0]).value))
    else
      None
  }

  /** The calculations among `ds`, in order. */
  function Compact(ds: seq<Option<Calc>>): (r: seq<Calc>)
    ensures |r| <= |ds|
  {
    if |ds| == 0 then []
    else Compact(ds[..|ds| - 1]) + match ds[|ds| - 1] case Some(c) => [c] case None => []
  }

  /** Each folder decoded on its own. */
  function Decoded(folders: seq<Element>): (ds: seq<Option<Calc>>)
    ensures |ds| == |folders|
  {
    seq(|folders|, j requires 0 <= j < |folders| => DecodeFolder(folders[j]))
  }

  /** The calculations the valid folders yield, in document order. */
  function ValidCalcs(folders: seq<Element>): (r: seq<Calc>)
    ensures |r| <= |folders|
  {
    Compact(Decoded(folders))
  }

  function Defaults(n: nat): (r: seq<Calc>)
    ensures |r| == n && forall i :: 0 <= i < n ==> r[i] == DefaultCalc
  {
    seq(n, _ => DefaultCalc)
  }

  /** The whole of `aCalc` once every folder has been looked at: the valid
      calculations first, then default slots up to one slot per folder. */
  function Slots(folders: seq<Element>): seq<Calc>
  {
    ValidCalcs(folders) + Defaults(|folders| - |ValidCalcs(folders)|)
  }

  lemma {:induction false} CompactAppend(a: seq<Option<Calc>>, b: seq<Option<Calc>>)
    ensures Compact(a + b) == Compact(a) + Compact(b)
  {
    if |b| > 0 {
      var init := b[..|b| - 1];
      assert (a + b)[..|a + b| - 1] == a + init;
      CompactAppend(a, init);
    } else {
      assert a + b == a;
    }
  }

  /** What one more entry adds to the calculations of a prefix. */
  lemma CompactStep(ds: seq<Option<Calc>>, k: nat)
    requires k < |ds|
    ensures ds[k].None? ==> Compact(ds[..k + 1]) == Compact(ds[..k])
    ensures ds[k].Some? ==> Compact(ds[..k + 1]) == Compact(ds[..k]) + [ds[k].value]
  {
    assert ds[..k + 1][..k] == ds[..k];
  }

  lemma DecodedAppend(a: seq<Element>, b: seq<Element>)
    ensures Decoded(a + b) == Decoded(a) + Decoded(b)
  {
    var l, r := Decoded(a + b), Decoded(a) + Decoded(b);
    forall j | 0 <= j < |l|
      ensures l[j] == r[j]
    {
      if j < |a| {
        assert (a + b)[j] == a[j];
      } else {
        assert (a + b)[j] == b[j - |a|];
      }
    }
  }

  /** Valid calculations keep the document order of their folders. */
  lemma ValidCalcsAppend(a: seq<Element>, b: seq<Element>)
    ensures ValidCalcs(a + b) == ValidCalcs(a) + ValidCalcs(b)
  {
    DecodedAppend(a, b);
    CompactAppend(Decoded(a), Decoded(b));
  }

  lemma CompactSkipsNone(x: seq<Option<Calc>>, n: Option<Calc>, y: seq<Option<Calc>>)
    requires n.None?
    ensures Compact(x + [n] + y) == Compact(x + y)
  {
    CompactAppend(x + [n], y);
    CompactAppend(x, [n]);
    CompactAppend(x, y);
    assert [n][..0] == [];
  }

  /** A folder that does not decode contributes nothing, wherever it stands. */
  lemma InvalidFolderIgnored(a: seq<Element>, f: Element, b: seq<Element>)
    requires DecodeFolder(f).None?
    ensures ValidCalcs(a + [f] + b) == ValidCalcs(a + b)
  {
    DecodedAppend(a + [f], b);
    DecodedAppend(a, [f]);
    DecodedAppend(a, b);
    assert Decoded(a + [f] + b) == Decoded(a) + [DecodeFolder(f)] + Decoded(b);
    CompactSkipsNone(Decoded(a), DecodeFolder(f), Decoded(b));
  }

  /** `aCalc` has one slot per selected folder. */
  lemma SlotsLength(folders: seq<Element>)
    ensures |Slots(folders)| == |folders|
  {
  }

  /** An array holding the valid calculations from index 0 and defaults after
      them, one slot per folder, is exactly Slots. */
  lemma FilledIsSlots(a: seq<Calc>, i: nat, folders: seq<Element>)
    requires |a| == |folders| && i <= |a|
    requires a[..i] == ValidCalcs(folders)
    requires forall j :: i <= j < |a| ==> a[j] == DefaultCalc
    ensures a == Slots(folders)
  {
    assert a == a[..i] + a[i..];
    assert a[i..] == Defaults(|a| - i);
  }

  // ---------------------------------------------------------------------------
  // The extraction as ProcXml in xmlCalc's Program.cs performs it
  // ---------------------------------------------------------------------------

  /** The innermost scan: the attributes of one child, the last `name` and the
      last `value` winning, both "" when absent. */
  method ReadAttributes(node: Element) returns (attrName: string, attrValue: string)
    ensures attrName == AttributeValue(node.attributes, "name")
    ensures attrValue == AttributeValue(node.attributes, "value")
  {
    attrName, attrValue := "", "";
    var attrs := node.attributes;
    for k := 0 to |attrs|
      invariant attrName == AttributeValue(attrs[..k], "name")
      invariant attrValue == AttributeValue(attrs[..k], "value")
    {
      assert attrs[..k + 1][..k] == attrs[..k];
      if attrs[k].name == "name" {
        attrName := attrs[k].value;
      } else if attrs[k].name == "value" {
        attrValue := attrs[k].value;
      }
    }
    assert attrs[..|attrs|] == attrs;
  }

  /** The scan over the children of one folder: how many children counted as
      `operand` or `mod`, and the last value seen for each. */
  method ScanFolder(folder: Element) returns (calcAttrCount: nat, strCalcOp: string, strNum: string)
    ensures calcAttrCount == |CountedValues(folder.children, "operand")| + |CountedValues(folder.children, "mod")|
    ensures strCalcOp == LastOrEmpty(CountedValues(folder.children, "operand"))
    ensures strNum == LastOrEmpty(CountedValues(folder.children, "mod"))
  {
    var children := folder.children;
    calcAttrCount, strCalcOp, strNum := 0, "", "";
    for k := 0 to |children|
      invariant calcAttrCount == |CountedValues(children[..k], "operand")| + |CountedValues(children[..k], "mod")|
      invariant strCalcOp == LastOrEmpty(CountedValues(children[..k], "operand"))
      invariant strNum == LastOrEmpty(CountedValues(children[..k], "mod"))
    {
      CountedValuesStep(children, k, "operand");
      CountedValuesStep(children, k, "mod");
      var attrName, attrValue := ReadAttributes(children[k]);
      if attrName == "" || attrValue == "" {
        continue;
      } else if attrName == "operand" {
        calcAttrCount := calcAttrCount + 1;
        strCalcOp := attrValue;
      } else if attrName == "mod" {
        calcAttrCount := calcAttrCount + 1;
        strNum := attrValue;
      }
    }
    assert children[..|children|] == children;
  }

  /** The acceptance test of ProcXml (`calcParamsCorrect`), stated on the scan's results, agrees
      with DecodeFolder: a counter of two with both values set means exactly
      one of each, so a duplicated `operand` or `mod` rejects the folder. */
  lemma {:induction false} AcceptanceAgrees(ops: seq<string>, mods: seq<string>)
    requires forall i :: 0 <= i < |ops| ==> ops[i] != ""
    requires forall i :: 0 <= i < |mods| ==> mods[i] != ""
    ensures (|ops| + |mods| == 2 && LastOrEmpty(ops) != "" && LastOrEmpty(mods) != "")
            <==> (|ops| == 1 && |mods| == 1)
    ensures |ops| == 1 ==> LastOrEmpty(ops) == ops[0]
    ensures |mods| == 1 ==> LastOrEmpty(mods) == mods[0]
  {
    assert |ops| > 0 ==> LastOrEmpty(ops) == ops[|ops| - 1] != "";
    assert |mods| > 0 ==> LastOrEmpty(mods) == mods[|mods| - 1] != "";
  }

  /** The body of the loop over the folders: scan one folder and apply the
      acceptance test of ProcXml to what the scan found. */
  method DecodeCalcFolder(calcFolder: Element) returns (decoded: Option<Calc>)
    ensures decoded == DecodeFolder(calcFolder)
  {
    var calcAttrCount, strCalcOp, strNum := ScanFolder(calcFolder);
    ghost var ops := CountedValues(calcFolder.children, "operand");
    ghost var mods := CountedValues(calcFolder.children, "mod");
    CountedValuesNonEmpty(calcFolder.children, "operand");
    CountedValuesNonEmpty(calcFolder.children, "mod");
    AcceptanceAgrees(ops, mods);
    var op := OpOf(strCalcOp);
    var calcNum := ParseInt32(strNum);
    var calcParamsCorrect :=
      calcAttrCount == 2 && strCalcOp != "" && strNum != "" && op.Some? && calcNum.Some?;
    if !calcParamsCorrect {
      assert !(|ops| == 1 && |mods| == 1 && OpOf(ops[0]).Some? && ParseInt32(mods[0]).Some?);
      return None;
    }
    assert op == OpOf(ops[0]) && calcNum == ParseInt32(mods[0]);
    return Some(Calc(op.value, calcNum.value));
  }

  /** Fills a fresh `aCalc` with one slot per folder: each valid folder's
      calculation in turn from index 0, the remaining slots left at their
      default. */
  method Extract(calcNodes: seq<Element>) returns (aCalc: array<Calc>, i: nat)
    ensures fresh(aCalc)
    ensures aCalc.Length == |calcNodes|
    ensures i == |ValidCalcs(calcNodes)|
    ensures aCalc[..] == Slots(calcNodes)
  {
    ghost var ds := Decoded(calcNodes);
    aCalc := new Calc[|calcNodes|](_ => DefaultCalc);
    i := 0;
    for k := 0 to |calcNodes|
      invariant i <= k
      invariant aCalc[..i] == Compact(ds[..k])
      invariant forall j :: i <= j < aCalc.Length ==> aCalc[j] == DefaultCalc
    {
      var decoded := DecodeCalcFolder(calcNodes[k]);
      CompactStep(ds, k);
      if decoded.Some? {
        aCalc[i] := decoded.value;
        assert aCalc[..i + 1] == Compact(ds[..k]) + [decoded.value];
        i := i + 1;
      }
    }
    assert ds[..|ds|] == ds;
    FilledIsSlots(aCalc[..], i, calcNodes);
  }
}
