/** The parsed XML document as the interpreter sees it: ElementTree
    elements reduced to tag, attributes, text and child elements. */
module Document {
  import opened Wrappers

  /** One element. `text` is ElementTree's `Element.text`: `None` when the
      element has no character data before its first child. */
  datatype Node = Node(tag: string, attrs: map<string, string>, text: Option<string>, children: seq<Node>)

  /** `element.attrib.get(key, default)`. */
  function Attr(n: Node, key: string, default: string): (r: string) {
    if key in n.attrs then n.attrs[key] else default
  }

  /** `element.findall('option')`: the direct children tagged `option`, in
      document order. Grandchildren are never searched. */
  function Options(children: seq<Node>): (r: seq<Node>)
    ensures |r| <= |children|
    ensures forall o :: o in r ==> o in children && o.tag == "option"
    ensures forall c :: c in children && c.tag == "option" ==> c in r
  {
    if children == [] then []
    else (if children[0].tag == "option" then [children[0]] else []) + Options(children[1..])
  }

  /** findall distributes over concatenation, so it keeps document order. */
  lemma {:induction false} OptionsAppend(a: seq<Node>, b: seq<Node>)
    ensures Options(a + b) == Options(a) + Options(b)
  {
    if a == [] {
      assert a + b == b;
    } else {
      assert (a + b)[0] == a[0];
      assert (a + b)[1..] == a[1..] + b;
      OptionsAppend(a[1..], b);
    }
  }

  /** A child that is not an `option` is not found. */
  lemma OptionsSkipNonOption(a: seq<Node>, c: Node, b: seq<Node>)
    requires c.tag != "option"
    ensures Options(a + [c] + b) == Options(a + b)
  {
    assert Options([c]) == [] by {
      assert [c][1..] == [];
    }
    OptionsAppend(a, [c]);
    assert Options(a + [c]) == Options(a);
    OptionsAppend(a + [c], b);
    OptionsAppend(a, b);
  }
}
