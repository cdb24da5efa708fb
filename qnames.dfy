/** The pure part of the reader: splitting a qualified field name at the
    namespace separator, and deciding whether an attribute field is a
    namespace declaration or an ordinary attribute. */
module QNames {
  import opened Wrappers
  import opened JsonXml

  /** Java's String.indexOf(char): the index of the first occurrence of `c`
      in `s`, or -1 when `c` does not occur. */
  function IndexOf(s: string, c: char): (r: int)
    ensures r < 0 <==> c !in s
    ensures r >= -1
    ensures 0 <= r ==> r < |s| && s[r] == c && c !in s[..r]
  {
    if |s| == 0 then -1
    else if s[0] == c then 0
    else
      var k := IndexOf(s[1..], c);
      if k < 0 then -1 else k + 1
  }

  /** The qualified name `prefix sep local`, the inverse of SplitName for a
      prefix that does not hold the separator. */
  function Qualify(prefix: string, sep: char, local: string): string {
    prefix + [sep] + local
  }

  /** readStartElementTag(String): the prefix is the text before the first
      separator and the local name the text after it; with no separator the
      prefix is the default one and the local name the whole name. */
  function SplitName(name: string, sep: char): (r: (string, string))
    ensures sep !in name ==> r == (DefaultNsPrefix, name)
    ensures sep in name ==> Qualify(r.0, sep, r.1) == name && sep !in r.0
  {
    var i := IndexOf(name, sep);
    if i < 0 then (DefaultNsPrefix, name)
    else
      CutAround(name, i);
      (name[..i], name[i + 1..])
  }

  /** A string is the text before position `i`, the character at `i` and
      the text after it. */
  lemma CutAround(s: string, i: nat)
    requires i < |s|
    ensures s[..i] + [s[i]] + s[i + 1..] == s
  {
    assert s == s[..i] + s[i..];
    assert s[i..] == [s[i]] + s[i + 1..];
  }

  /** Whether `name` is `xmlns` followed by the separator, found as the first
      separator of the name: the prefixed namespace-declaration form. */
  predicate IsPrefixedXmlns(name: string, sep: char) {
    sep !in Xmlns && |name| > |Xmlns| && name[..|Xmlns|] == Xmlns && name[|Xmlns|] == sep
  }

  /** readAttrNsDecl: the event an attribute field (its `@` already removed)
      with the given value becomes. */
  function AttrNsDecl(name: string, value: Option<string>, sep: char): (e: Event)
    ensures e.Attribute? || e.NamespaceDecl?
    ensures sep !in name && name == Xmlns ==> e == NamespaceDecl(DefaultNsPrefix, value)
    ensures sep !in name && name != Xmlns ==> e == Attribute(DefaultNsPrefix, name, value)
    ensures IsPrefixedXmlns(name, sep) ==> e == NamespaceDecl(name[|Xmlns| + 1..], value)
    ensures sep in name && !IsPrefixedXmlns(name, sep) ==>
      e.Attribute? && e.value == value && Qualify(e.prefix, sep, e.localName) == name && sep !in e.prefix
  {
    var i := IndexOf(name, sep);
    if i < 0 then
      if name == Xmlns then NamespaceDecl(DefaultNsPrefix, value)
      else Attribute(DefaultNsPrefix, name, value)
    else if |name| >= |Xmlns| && name[..|Xmlns|] == Xmlns && i == |Xmlns| then
      NamespaceDecl(name[i + 1..], value)
    else
      var (prefix, local) := SplitName(name, sep);
      Attribute(prefix, local, value)
  }

  /** The first separator of a qualified name is the one that follows a
      separator-free prefix. */
  lemma IndexOfQualified(prefix: string, sep: char, local: string)
    requires sep !in prefix
    ensures IndexOf(Qualify(prefix, sep, local), sep) == |prefix|
  {
    var n := Qualify(prefix, sep, local);
    assert n[|prefix|] == sep;
  }

  /** Splitting a qualified name whose prefix holds no separator gives back
      that prefix and local name. */
  lemma SplitQualify(prefix: string, sep: char, local: string)
    requires sep !in prefix
    ensures SplitName(Qualify(prefix, sep, local), sep) == (prefix, local)
  {
    var n := Qualify(prefix, sep, local);
    IndexOfQualified(prefix, sep, local);
    assert n[..|prefix|] == prefix;
    assert n[|prefix| + 1..] == local;
  }
}
