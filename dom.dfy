/** The parsed HTML fragment as an owned tree, and the attribute helpers
    `textContent`, `hasAttr`, `getAttr` and `setAttr` of the content
    processor. Attribute lists keep their order and may repeat a key; the
    helpers always act on the first pair with the key. */
module Dom {

  datatype Attr = Attr(key: string, val: string)

  /** An element, a text node, or any other leaf (comments and the like). */
  datatype Node =
    | Element(tag: string, attrs: seq<Attr>, children: seq<Node>)
    | Text(data: string)
    | Comment(data: string)

  /** `textContent`: a text node's data, otherwise the text of the children
      concatenated in document order. */
  function TextContent(n: Node): string
    decreases n
  {
    match n
    case Text(d) => d
    case Element(_, _, cs) => TextOf(cs)
    case Comment(_) => ""
  }

  function TextOf(cs: seq<Node>): string
    decreases cs
  {
    if cs == [] then "" else TextContent(cs[0]) + TextOf(cs[1..])
  }

  /** `hasAttr` */
  predicate HasAttr(attrs: seq<Attr>, key: string) {
    exists j :: 0 <= j < |attrs| && attrs[j].key == key
  }

  /** Position of the first pair with `key`, or -1. */
  function KeyIndex(attrs: seq<Attr>, key: string): (i: int)
    ensures -1 <= i < |attrs|
    ensures i >= 0 ==> attrs[i].key == key
    ensures forall j :: 0 <= j < |attrs| && (i < 0 || j < i) ==> attrs[j].key != key
  {
    if attrs == [] then -1
    else if attrs[0].key == key then 0
    else
      var k := KeyIndex(attrs[1..], key);
      if k < 0 then -1 else k + 1
  }

  /** `getAttr`: the value of the first pair with `key`, or "" when absent. */
  function GetAttr(attrs: seq<Attr>, key: string): (v: string)
    ensures !HasAttr(attrs, key) ==> v == ""
    ensures HasAttr(attrs, key) ==>
      exists i :: 0 <= i < |attrs| && attrs[i] == Attr(key, v) &&
        forall j :: 0 <= j < i ==> attrs[j].key != key
  {
    var i := KeyIndex(attrs, key);
    if i < 0 then "" else attrs[i].val
  }

  /** What `setAttr` leaves in the attribute list. */
  function WithAttr(attrs: seq<Attr>, key: string, val: string): seq<Attr> {
    var i := KeyIndex(attrs, key);
    if i < 0 then attrs + [Attr(key, val)] else attrs[i := Attr(key, val)]
  }

  /** `setAttr`: overwrite the value of the first pair with `key`, or append
      a new pair when there is none. */
  method SetAttr(attrs: seq<Attr>, key: string, val: string) returns (r: seq<Attr>)
    ensures r == WithAttr(attrs, key, val)
  {
    var i := 0;
    while i < |attrs|
      invariant 0 <= i <= |attrs|
      invariant forall j :: 0 <= j < i ==> attrs[j].key != key
    {
      if attrs[i].key == key {
        r := attrs[i := attrs[i].(val := val)];
        return;
      }
      i := i + 1;
    }
    r := attrs + [Attr(key, val)];
  }

  /** After `setAttr` the key is present and reads as the new value. */
  lemma WithAttrSame(attrs: seq<Attr>, key: string, val: string)
    ensures HasAttr(WithAttr(attrs, key, val), key)
    ensures GetAttr(WithAttr(attrs, key, val), key) == val
  {
    var r := WithAttr(attrs, key, val);
    var i := KeyIndex(attrs, key);
    assert r[if i < 0 then |attrs| else i] == Attr(key, val);
  }

  /** `setAttr` leaves every other key as it reads before. */
  lemma WithAttrOther(attrs: seq<Attr>, key: string, val: string, k: string)
    requires k != key
    ensures HasAttr(WithAttr(attrs, key, val), k) <==> HasAttr(attrs, k)
    ensures GetAttr(WithAttr(attrs, key, val), k) == GetAttr(attrs, k)
  {
    var r := WithAttr(attrs, key, val);
    if HasAttr(attrs, k) {
      var j := KeyIndex(attrs, k);
      assert r[j] == attrs[j];
      assert KeyIndex(r, k) == j;
    } else {
      assert forall j :: 0 <= j < |r| ==> r[j].key != k;
    }
  }

  /** An existing key keeps the length and changes only its first pair; a
      missing key appends exactly one pair. */
  lemma WithAttrShape(attrs: seq<Attr>, key: string, val: string)
    ensures var r := WithAttr(attrs, key, val);
      (HasAttr(attrs, key) ==>
        |r| == |attrs| &&
        exists i :: 0 <= i < |attrs| && attrs[i].key == key && r[i] == Attr(key, val) &&
          (forall j :: 0 <= j < i ==> attrs[j].key != key) &&
          forall j :: 0 <= j < |attrs| && j != i ==> r[j] == attrs[j]) &&
      (!HasAttr(attrs, key) ==> r == attrs + [Attr(key, val)])
  {
  }

  /** Appending a pair is seen only by a key that was absent. */
  lemma AppendAttr(attrs: seq<Attr>, key: string, val: string, k: string)
    ensures HasAttr(attrs + [Attr(key, val)], k) <==> HasAttr(attrs, k) || k == key
    ensures GetAttr(attrs + [Attr(key, val)], k) ==
      if HasAttr(attrs, k) then GetAttr(attrs, k) else if k == key then val else ""
  {
    var r := attrs + [Attr(key, val)];
    if HasAttr(attrs, k) {
      var j := KeyIndex(attrs, k);
      assert r[j] == attrs[j];
      assert KeyIndex(r, k) == j;
    } else if k == key {
      assert r[|attrs|].key == key;
      assert KeyIndex(r, k) == |attrs|;
    }
  }
}
