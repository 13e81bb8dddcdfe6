/**
 The raw token stream the tag-catalog walker reads, as an XML decoder's
 RawToken yields it: start elements with their attributes, end elements,
 character data and everything else (comments, processing instructions),
 plus a token that stands for a read error.  Only the local part of an
 element or attribute name matters to the walker, so names are plain strings.
 */
module XmlTokens {

  datatype Option<T> = None | Some(value: T) {
    function GetOr(default: T): T {
      if Some? then value else default
    }
  }

  /** One attribute of a start element. */
  datatype Attr = Attr(name: string, value: string)

  /** A raw token.  `Fault` is a read error of the underlying stream: the
      decoder reports it and keeps reporting it on every later read. */
  datatype Token =
    | Start(name: string, attrs: seq<Attr>)
    | End(name: string)
    | CharData(text: string)
    | Other
    | Fault(reason: string)

  /** Attribute `i` is the last one called `key`. */
  predicate LastAt(attrs: seq<Attr>, key: string, i: int) {
    0 <= i < |attrs| && attrs[i].name == key && forall j :: i < j < |attrs| ==> attrs[j].name != key
  }

  /** Attribute `i` is the first one called `key`. */
  predicate FirstAt(attrs: seq<Attr>, key: string, i: int) {
    0 <= i < |attrs| && attrs[i].name == key && forall j :: 0 <= j < i ==> attrs[j].name != key
  }

  /** No attribute is called `key`. */
  predicate Absent(attrs: seq<Attr>, key: string) {
    forall i :: 0 <= i < |attrs| ==> attrs[i].name != key
  }

  /** The value of the LAST attribute called `key`: what a loop over the
      attributes that overwrites a field on every match leaves behind. */
  function LastValue(attrs: seq<Attr>, key: string): (r: Option<string>)
    ensures r.None? <==> Absent(attrs, key)
    ensures r.Some? ==> exists i :: LastAt(attrs, key, i) && attrs[i].value == r.value
  {
    if |attrs| == 0 then None
    else if attrs[|attrs| - 1].name == key then Some(attrs[|attrs| - 1].value)
    else LastValue(attrs[..|attrs| - 1], key)
  }

  /** The value of the FIRST attribute called `key`: what a loop that stops
      at the first match leaves behind. */
  function FirstValue(attrs: seq<Attr>, key: string): (r: Option<string>)
    ensures r.None? <==> Absent(attrs, key)
    ensures r.Some? ==> exists i :: FirstAt(attrs, key, i) && attrs[i].value == r.value
  {
    if |attrs| == 0 then None
    else if attrs[0].name == key then Some(attrs[0].value)
    else
      FirstValue(attrs[1..], key)
  }

  /** Removing an attribute with another name never changes the last value of `key`. */
  lemma {:induction false} LastValueIgnoresOthers(front: seq<Attr>, a: Attr, back: seq<Attr>, key: string)
    requires a.name != key
    ensures LastValue(front + [a] + back, key) == LastValue(front + back, key)
  {
    if |back| == 0 {
      assert front + [a] + back == front + [a];
      assert (front + [a])[..|front + [a]| - 1] == front;
      assert front + back == front;
    } else {
      var n := |back| - 1;
      assert (front + [a] + back)[..|front + [a] + back| - 1] == front + [a] + back[..n];
      assert (front + back)[..|front + back| - 1] == front + back[..n];
      LastValueIgnoresOthers(front, a, back[..n], key);
    }
  }
}
