/** The element tree an XMLWriter session produces, and the generic
    namespaced serialiser `Generator::hashToXML` (Generator.php:196-208). */
module Xml {
  import opened Values

  /** An element with its attributes in the order they were written, or a
      text node. */
  datatype Node =
    | Element(name: string, attrs: seq<(string, string)>, children: seq<Node>)
    | Text(content: string)

  /** A finished document: the prolog's version and encoding, and the root. */
  datatype Document = Document(version: string, encoding: string, root: Node)

  const XmlVersion := "1.0"
  const XmlEncoding := "UTF-8"

  /** `XMLWriter::writeElement($name, $text)`: an element holding one text node. */
  function Leaf(name: string, text: string): Node {
    Element(name, [], [Text(text)])
  }

  /** `hashToXML($hash, $xml, $ns)`: one element per key, in key order, named
      `$ns . $key`; a scalar becomes the element's text and an array recurses
      with the same prefix. */
  function HashToXml(h: Hash, ns: string): (r: seq<Node>)
    ensures |r| == |h|
    ensures forall i :: 0 <= i < |h| ==>
      r[i].Element? && r[i].name == ns + h[i].key && r[i].attrs == []
    ensures forall i :: 0 <= i < |h| && h[i].value.Scalar? ==>
      r[i].children == [Text(h[i].value.text)]
    ensures forall i :: 0 <= i < |h| && h[i].value.Map? ==>
      |r[i].children| == |h[i].value.fields|
  {
    if h == [] then []
    else
      var v := h[0].value;
      var children := if v.Scalar? then [Text(v.text)] else HashToXml(v.fields, ns);
      [Element(ns + h[0].key, [], children)] + HashToXml(h[1..], ns)
  }

  /** Every element at every depth is named with prefix `ns`, and carries no
      attributes. */
  ghost predicate Namespaced(nodes: seq<Node>, ns: string) {
    forall i :: 0 <= i < |nodes| && nodes[i].Element? ==>
      && ns <= nodes[i].name
      && nodes[i].attrs == []
      && Namespaced(nodes[i].children, ns)
  }

  function StripPrefix(name: string, ns: string): string {
    if ns <= name then name[|ns|..] else name
  }

  /** Reads an element tree back into an associative array: element names
      lose the prefix `ns`, an element holding a single text node is a scalar,
      any other element is an array. Text outside an element has no key and
      is read as an empty scalar. */
  function ReadHash(nodes: seq<Node>, ns: string): Hash {
    if nodes == [] then []
    else
      var n := nodes[0];
      var field :=
        if n.Text? then Field("", Scalar(""))
        else if |n.children| == 1 && n.children[0].Text? then
          Field(StripPrefix(n.name, ns), Scalar(n.children[0].content))
        else
          Field(StripPrefix(n.name, ns), Map(ReadHash(n.children, ns)));
      [field] + ReadHash(nodes[1..], ns)
  }

  /** The prefix `ns` is applied at every depth of the output. */
  lemma {:induction false} HashToXmlNamespaced(h: Hash, ns: string)
    ensures Namespaced(HashToXml(h, ns), ns)
  {
    if h != [] {
      var r := HashToXml(h, ns);
      var v := h[0].value;
      if v.Map? {
        HashToXmlNamespaced(v.fields, ns);
      }
      HashToXmlNamespaced(h[1..], ns);
      assert r[1..] == HashToXml(h[1..], ns);
      forall i | 0 <= i < |r| && r[i].Element?
        ensures ns <= r[i].name && r[i].attrs == [] && Namespaced(r[i].children, ns)
      {
        if i > 0 {
          assert r[i] == r[1..][i - 1];
        }
      }
    }
  }

  /** Serialising loses nothing: reading the elements back with the same
      prefix gives the original keys, values and nesting. */
  lemma {:induction false} ReadHashToXml(h: Hash, ns: string)
    ensures ReadHash(HashToXml(h, ns), ns) == h
  {
    if h != [] {
      var r := HashToXml(h, ns);
      var v := h[0].value;
      assert StripPrefix(ns + h[0].key, ns) == h[0].key by {
        assert ns <= ns + h[0].key;
        assert (ns + h[0].key)[|ns|..] == h[0].key;
      }
      assert r[1..] == HashToXml(h[1..], ns);
      ReadHashToXml(h[1..], ns);
      if v.Map? {
        ReadHashToXml(v.fields, ns);
        if v.fields != [] {
          assert HashToXml(v.fields, ns)[0].Element?;
        }
      }
    }
  }

  // ---------------------------------------------------------------------
  // Element names. XMLWriter's startElement and writeElement refuse a name
  // that libxml2's xmlValidateName does not accept as an XML Name.

  /** How the character tables of the XML 1.0 recommendation (Appendix B)
      classify a character beyond ASCII: whether it is a letter, and whether
      it may continue a name (letter, digit, combining character or
      extender). */
  datatype WideChars = WideChars(letter: char -> bool, follows: char -> bool)

  predicate IsAscii(c: char) {
    c as int < 128
  }

  /** A character that may begin a name: an ASCII letter, `_`, `:`, or a
      letter beyond ASCII. */
  predicate NameStart(w: WideChars, c: char) {
    ('a' <= c <= 'z') || ('A' <= c <= 'Z') || c == '_' || c == ':'
    || (!IsAscii(c) && w.letter(c))
  }

  /** A character that may continue a name: a start character, an ASCII
      digit, `-`, `.`, or a name character beyond ASCII. */
  predicate NameFollow(w: WideChars, c: char) {
    NameStart(w, c) || ('0' <= c <= '9') || c == '-' || c == '.'
    || (!IsAscii(c) && w.follows(c))
  }

  /** An XML Name: non-empty, a start character, then name characters.
      Neither blanks nor an empty string are accepted. */
  predicate ValidName(w: WideChars, s: string) {
    |s| > 0 && NameStart(w, s[0]) && forall i :: 1 <= i < |s| ==> NameFollow(w, s[i])
  }

  /** Every element of the tree has a name XMLWriter accepts. */
  predicate NamesValid(w: WideChars, n: Node) {
    n.Text? || (ValidName(w, n.name) && AllNamesValid(w, n.children))
  }

  predicate AllNamesValid(w: WideChars, nodes: seq<Node>) {
    forall i :: 0 <= i < |nodes| ==> NamesValid(w, nodes[i])
  }

  /** The names hashToXML writes for `h` under prefix `ns`, stated on the keys:
      the prefix followed by each key, at every depth, is an XML Name. */
  predicate PrefixedNames(w: WideChars, ns: string, h: Hash) {
    forall i :: 0 <= i < |h| ==>
      ValidName(w, ns + h[i].key) && (h[i].value.Map? ==> PrefixedNames(w, ns, h[i].value.fields))
  }

  lemma AllNamesValidAppend(w: WideChars, a: seq<Node>, b: seq<Node>)
    ensures AllNamesValid(w, a + b) <==> AllNamesValid(w, a) && AllNamesValid(w, b)
  {
    if AllNamesValid(w, a + b) {
      forall i | 0 <= i < |a| ensures NamesValid(w, a[i]) {
        assert (a + b)[i] == a[i];
      }
      forall i | 0 <= i < |b| ensures NamesValid(w, b[i]) {
        assert (a + b)[|a| + i] == b[i];
      }
    }
    if AllNamesValid(w, a) && AllNamesValid(w, b) {
      forall i | 0 <= i < |a + b| ensures NamesValid(w, (a + b)[i]) {
        if i < |a| { assert (a + b)[i] == a[i]; } else { assert (a + b)[i] == b[i - |a|]; }
      }
    }
  }

  lemma SingleNames(w: WideChars, n: Node)
    ensures AllNamesValid(w, [n]) <==> NamesValid(w, n)
  {
    assert [n][0] == n;
  }

  lemma PrefixedNamesSplit(w: WideChars, ns: string, h: Hash)
    requires h != []
    ensures PrefixedNames(w, ns, h) <==>
      && ValidName(w, ns + h[0].key)
      && (h[0].value.Map? ==> PrefixedNames(w, ns, h[0].value.fields))
      && PrefixedNames(w, ns, h[1..])
  {
    var tail := h[1..];
    if PrefixedNames(w, ns, h) {
      forall i | 0 <= i < |tail|
        ensures ValidName(w, ns + tail[i].key) && (tail[i].value.Map? ==> PrefixedNames(w, ns, tail[i].value.fields))
      {
        assert tail[i] == h[i + 1];
      }
    } else if ValidName(w, ns + h[0].key) && (h[0].value.Map? ==> PrefixedNames(w, ns, h[0].value.fields)) {
      var i :| 0 <= i < |h| && !(ValidName(w, ns + h[i].key) && (h[i].value.Map? ==> PrefixedNames(w, ns, h[i].value.fields)));
      assert h[i] == tail[i - 1];
    }
  }

  /** XMLWriter accepts every element hashToXML writes exactly when every
      prefixed key, at every depth, is an XML Name. */
  lemma {:induction false} HashToXmlNames(w: WideChars, h: Hash, ns: string)
    ensures AllNamesValid(w, HashToXml(h, ns)) <==> PrefixedNames(w, ns, h)
  {
    if h != [] {
      var v := h[0].value;
      var children := if v.Scalar? then [Text(v.text)] else HashToXml(v.fields, ns);
      var n := Element(ns + h[0].key, [], children);
      assert HashToXml(h, ns) == [n] + HashToXml(h[1..], ns);
      HashToXmlNames(w, h[1..], ns);
      if v.Map? {
        HashToXmlNames(w, v.fields, ns);
      } else {
        assert AllNamesValid(w, children);
      }
      assert NamesValid(w, n) <==>
        ValidName(w, ns + h[0].key) && (v.Map? ==> PrefixedNames(w, ns, v.fields));
      SingleNames(w, n);
      AllNamesValidAppend(w, [n], HashToXml(h[1..], ns));
      PrefixedNamesSplit(w, ns, h);
    }
  }
}
