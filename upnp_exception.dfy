/**
  Reading a UPnP error out of the XML document a UPnP device answers with: the first
  `UPnPError` element in document order, and its `errorCode` and `errorDescription`
  children.
 */
module UPnP {
  import opened Wrappers
  import opened String2

  newtype int32 = x: int | -0x8000_0000 <= x < 0x8000_0000

  /** A parsed XML node: its name, its child nodes in document order, and its inner text. */
  datatype XmlNode = XmlNode(name: string, children: seq<XmlNode>, innerText: string)

  /**
    The error stream, as `XmlDocument.Load` sees it: a null reference, content it
    refuses (it throws), or the document node it builds.
   */
  datatype XmlStream = NullStream | Unloadable | Document(root: XmlNode)

  /** `ArgumentNullException` for a null stream, `ParseException` when no error can be read. */
  datatype Error = ArgumentNull | ParseFailed

  /** The integer conversion of the inner text: `None` when it throws. */
  type Conversion = string -> Option<int32>

  /** Document order of a sequence of sibling trees: each node, its subtree, then the siblings after it. */
  function Preorder(ns: seq<XmlNode>): seq<XmlNode>
    decreases ns
  {
    if ns == [] then [] else [ns[0]] + Preorder(ns[0].children) + Preorder(ns[1..])
  }

  lemma {:induction false} PreorderAppend(a: seq<XmlNode>, b: seq<XmlNode>)
    ensures Preorder(a + b) == Preorder(a) + Preorder(b)
    decreases a
  {
    if a == [] {
      assert a + b == b;
    } else {
      assert (a + b)[0] == a[0];
      assert (a + b)[1..] == a[1..] + b;
      PreorderAppend(a[1..], b);
    }
  }

  /** A node named `name`, under the invariant culture's case-insensitive comparison. */
  predicate IsNamed(n: XmlNode, name: string, coll: Collation)
    ensures IsNamed(n, name, coll) <==> coll.invariantEq(name, n.name, true)
    ensures FoldsAsciiCase(coll.invariantEq) && IsAscii(name) && IsAscii(n.name) ==>
      (IsNamed(n, name, coll) <==> FoldCase(name) == FoldCase(n.name))
  {
    Equals(Some(name), Some(n.name), InvariantCultureIgnoreCase, coll)
  }

  predicate IsErrorElement(n: XmlNode, coll: Collation) {
    IsNamed(n, "UPnPError", coll)
  }

  /** The position of the first error element in `s`, or `|s|` when there is none. */
  function FirstErrorIndex(s: seq<XmlNode>, coll: Collation): (k: nat)
    ensures k <= |s|
    ensures k < |s| ==> IsErrorElement(s[k], coll)
    ensures forall j :: 0 <= j < k ==> !IsErrorElement(s[j], coll)
  {
    if s == [] then 0
    else if IsErrorElement(s[0], coll) then 0
    else 1 + FirstErrorIndex(s[1..], coll)
  }

  /** The first error element of the document, in document order. */
  function FindErrorElement(root: XmlNode, coll: Collation): (r: Option<XmlNode>)
    ensures r.Some? ==> r.value in Preorder([root]) && IsErrorElement(r.value, coll)
    ensures r.None? ==> forall n :: n in Preorder([root]) ==> !IsErrorElement(n, coll)
  {
    var s := Preorder([root]);
    var k := FirstErrorIndex(s, coll);
    if k < |s| then Some(s[k]) else None
  }

  /**
    The element found is an error element, and no node before it in document order
    is one; no error element anywhere means none is found.
   */
  lemma FindErrorElementIsFirst(root: XmlNode, coll: Collation)
    ensures FindErrorElement(root, coll).None? ==>
      forall j :: 0 <= j < |Preorder([root])| ==> !IsErrorElement(Preorder([root])[j], coll)
    ensures (forall j :: 0 <= j < |Preorder([root])| ==> !IsErrorElement(Preorder([root])[j], coll))
            ==> FindErrorElement(root, coll).None?
    ensures FindErrorElement(root, coll).Some? ==>
      exists k :: 0 <= k < |Preorder([root])| && Preorder([root])[k] == FindErrorElement(root, coll).value
                  && IsErrorElement(Preorder([root])[k], coll)
                  && forall j :: 0 <= j < k ==> !IsErrorElement(Preorder([root])[j], coll)
  {
    var s := Preorder([root]);
    var k := FirstErrorIndex(s, coll);
    if k < |s| {
      assert FindErrorElement(root, coll) == Some(s[k]);
      assert IsErrorElement(s[k], coll);
    }
  }

  /** What comes after the first error element in document order is never looked at. */
  lemma {:induction false} FirstErrorIgnoresLaterNodes(s: seq<XmlNode>, t: seq<XmlNode>, coll: Collation)
    requires FirstErrorIndex(s, coll) < |s|
    ensures FirstErrorIndex(s + t, coll) == FirstErrorIndex(s, coll)
  {
    if !IsErrorElement(s[0], coll) {
      assert (s + t)[1..] == s[1..] + t;
      FirstErrorIgnoresLaterNodes(s[1..], t, coll);
    }
  }

  /** How the child scan treats a child: `errorCode` is tested first, then `errorDescription`. */
  datatype ChildKind = CodeChild | DescriptionChild | OtherChild

  function Kind(c: XmlNode, coll: Collation): (k: ChildKind)
    ensures k == CodeChild <==> IsNamed(c, "errorCode", coll)
    ensures k == DescriptionChild <==> !IsNamed(c, "errorCode", coll) && IsNamed(c, "errorDescription", coll)
  {
    if IsNamed(c, "errorCode", coll) then CodeChild
    else if IsNamed(c, "errorDescription", coll) then DescriptionChild
    else OtherChild
  }

  /** The error code and text read so far; -1 and null are the values before any is read. */
  datatype Fields = Fields(errorCode: int32, errorText: Option<string>)

  const Unset: Fields := Fields(-1, None)

  /**
    The scan of an error element's children, front to back: each `errorCode` child
    overwrites the code, each `errorDescription` child the text.  A conversion that
    throws ends the scan with the values read before it.
   */
  function ScanChildren(cs: seq<XmlNode>, acc: Fields, coll: Collation, toInt32: Conversion): (r: Fields)
    ensures r.errorCode == acc.errorCode
            || exists c :: c in cs && Kind(c, coll) == CodeChild && toInt32(c.innerText) == Some(r.errorCode)
    ensures r.errorText == acc.errorText
            || exists c :: c in cs && Kind(c, coll) == DescriptionChild && r.errorText == Some(c.innerText)
  {
    if cs == [] then acc
    else
      var c := cs[0];
      match Kind(c, coll)
      case CodeChild =>
        (match toInt32(c.innerText)
         case None => acc
         case Some(v) => ScanChildren(cs[1..], acc.(errorCode := v), coll, toInt32))
      case DescriptionChild => ScanChildren(cs[1..], acc.(errorText := Some(c.innerText)), coll, toInt32)
      case OtherChild => ScanChildren(cs[1..], acc, coll, toInt32)
  }

  /** What the whole search yields for a loaded document, or for one that failed to load. */
  function ExtractFields(doc: Option<XmlNode>, coll: Collation, toInt32: Conversion): (r: Fields)
    ensures r != Unset ==> doc.Some? && FindErrorElement(doc.value, coll).Some?
    ensures r.errorCode != -1 ==>
      exists c :: c in FindErrorElement(doc.value, coll).value.children && Kind(c, coll) == CodeChild
                  && toInt32(c.innerText) == Some(r.errorCode)
    ensures r.errorText.Some? ==>
      exists c :: c in FindErrorElement(doc.value, coll).value.children && Kind(c, coll) == DescriptionChild
                  && r.errorText == Some(c.innerText)
  {
    match doc
    case None => Unset
    case Some(root) =>
      match FindErrorElement(root, coll)
      case None => Unset
      case Some(n) => ScanChildren(n.children, Unset, coll, toInt32)
  }

  /** What `Parse` returns: the code and text of the error, or the exception it throws. */
  function ParseOutcome(stream: XmlStream, coll: Collation, toInt32: Conversion): (r: Result<(int32, string), Error>)
    ensures r == Failure(ArgumentNull) <==> stream.NullStream?
    ensures r.Success? ==> r.value.0 != -1
  {
    if stream.NullStream? then Failure(ArgumentNull)
    else
      var f := ExtractFields(if stream.Document? then Some(stream.root) else None, coll, toInt32);
      if f.errorCode == -1 || f.errorText.None? then Failure(ParseFailed)
      else Success((f.errorCode, f.errorText.value))
  }

  /** The last child of the given kind, if there is one. */
  function LastOfKind(cs: seq<XmlNode>, k: ChildKind, coll: Collation): (r: Option<XmlNode>)
    ensures r.Some? ==> r.value in cs && Kind(r.value, coll) == k
  {
    if cs == [] then None
    else if Kind(cs[|cs| - 1], coll) == k then Some(cs[|cs| - 1])
    else LastOfKind(cs[..|cs| - 1], k, coll)
  }

  lemma {:induction false} LastOfKindCons(cs: seq<XmlNode>, k: ChildKind, coll: Collation)
    requires |cs| > 0
    ensures LastOfKind(cs, k, coll) ==
      (var rest := LastOfKind(cs[1..], k, coll);
       if rest.Some? then rest else if Kind(cs[0], coll) == k then Some(cs[0]) else None)
  {
    if |cs| > 1 {
      var init := cs[..|cs| - 1];
      assert init[1..] == cs[1..][..|cs[1..]| - 1];
      assert cs[1..][|cs[1..]| - 1] == cs[|cs| - 1];
      if Kind(cs[|cs| - 1], coll) != k {
        LastOfKindCons(init, k, coll);
        assert init[0] == cs[0];
      }
    }
  }

  /** Every `errorCode` child's inner text converts. */
  predicate ConvertsAll(cs: seq<XmlNode>, coll: Collation, toInt32: Conversion) {
    forall c :: c in cs && Kind(c, coll) == CodeChild ==> toInt32(c.innerText).Some?
  }

  /** When every conversion succeeds, the last `errorCode` and the last `errorDescription` child win. */
  lemma {:induction false} ScanLastWins(cs: seq<XmlNode>, acc: Fields, coll: Collation, toInt32: Conversion)
    requires ConvertsAll(cs, coll, toInt32)
    ensures var r := ScanChildren(cs, acc, coll, toInt32);
      && r.errorCode == (match LastOfKind(cs, CodeChild, coll)
                         case None => acc.errorCode
                         case Some(c) => toInt32(c.innerText).value)
      && r.errorText == (match LastOfKind(cs, DescriptionChild, coll)
                         case None => acc.errorText
                         case Some(c) => Some(c.innerText))
  {
    if cs != [] {
      var c := cs[0];
      assert forall x :: x in cs[1..] ==> x in cs;
      LastOfKindCons(cs, CodeChild, coll);
      LastOfKindCons(cs, DescriptionChild, coll);
      match Kind(c, coll)
      case CodeChild =>
        ScanLastWins(cs[1..], acc.(errorCode := toInt32(c.innerText).value), coll, toInt32);
      case DescriptionChild =>
        ScanLastWins(cs[1..], acc.(errorText := Some(c.innerText)), coll, toInt32);
      case OtherChild =>
        ScanLastWins(cs[1..], acc, coll, toInt32);
    }
  }

  /**
    A conversion that throws ends the scan: the result is what the children before it
    gave, and no later child is examined.
   */
  lemma {:induction false} ScanStopsAtFailedConversion(cs: seq<XmlNode>, acc: Fields, k: nat,
                                                       coll: Collation, toInt32: Conversion)
    requires k < |cs| && Kind(cs[k], coll) == CodeChild && toInt32(cs[k].innerText).None?
    ensures ScanChildren(cs, acc, coll, toInt32) == ScanChildren(cs[..k], acc, coll, toInt32)
  {
    if k > 0 {
      var c := cs[0];
      assert cs[..k][0] == c;
      assert cs[..k][1..] == cs[1..][..k - 1];
      match Kind(c, coll)
      case CodeChild =>
        if toInt32(c.innerText).Some? {
          ScanStopsAtFailedConversion(cs[1..], acc.(errorCode := toInt32(c.innerText).value), k - 1, coll, toInt32);
        }
      case DescriptionChild =>
        ScanStopsAtFailedConversion(cs[1..], acc.(errorText := Some(c.innerText)), k - 1, coll, toInt32);
      case OtherChild =>
        ScanStopsAtFailedConversion(cs[1..], acc, k - 1, coll, toInt32);
    }
  }

  /** Without an error element, or without a document, parsing fails. */
  lemma NoErrorElementFails(stream: XmlStream, coll: Collation, toInt32: Conversion)
    requires stream.Unloadable? || (stream.Document? && FindErrorElement(stream.root, coll).None?)
    ensures ParseOutcome(stream, coll, toInt32) == Failure(ParseFailed)
  {
  }

  /**
    For a document whose first error element converts every code it holds, parsing
    succeeds exactly when that element has a code child whose last one is not -1 and a
    description child, and then returns the last of each.
   */
  lemma ParseReadsLastChildren(root: XmlNode, n: XmlNode, coll: Collation, toInt32: Conversion)
    requires FindErrorElement(root, coll) == Some(n)
    requires ConvertsAll(n.children, coll, toInt32)
    ensures var code := LastOfKind(n.children, CodeChild, coll);
      var text := LastOfKind(n.children, DescriptionChild, coll);
      var r := ParseOutcome(Document(root), coll, toInt32);
      && (r.Success? <==> code.Some? && toInt32(code.value.innerText).value != -1 && text.Some?)
      && (r.Success? ==> r.value == (toInt32(code.value.innerText).value, text.value.innerText))
  {
    ScanLastWins(n.children, Unset, coll, toInt32);
  }

  /**
    The `foreach` over the children of the error element: each `errorCode` child
    overwrites the code, each `errorDescription` child the text; a conversion that
    throws leaves the loop with the values read so far.
   */
  method ScanErrorElement(element: XmlNode, coll: Collation, toInt32: Conversion)
    returns (errorCode: int32, errorText: Option<string>)
    ensures Fields(errorCode, errorText) == ScanChildren(element.children, Unset, coll, toInt32)
  {
    errorCode, errorText := -1, None;
    var cs := element.children;
    var i := 0;
    while i < |cs|
      invariant 0 <= i <= |cs|
      invariant ScanChildren(cs, Unset, coll, toInt32)
                == ScanChildren(cs[i..], Fields(errorCode, errorText), coll, toInt32)
    {
      var node := cs[i];
      assert cs[i..][0] == node && cs[i..][1..] == cs[i + 1..];
      if IsNamed(node, "errorCode", coll) {
        var converted := toInt32(node.innerText);
        if converted.None? {
          // The conversion throws; the exception is caught and the values so far stay.
          return;
        }
        errorCode := converted.value;
      } else if IsNamed(node, "errorDescription", coll) {
        errorText := Some(node.innerText);
      }
      i := i + 1;
    }
  }

  /** The `Insert(i, ...)` loop: the children go to the front of the worklist, in order. */
  method InsertChildren(children: seq<XmlNode>, queue: seq<XmlNode>) returns (q: seq<XmlNode>)
    ensures q == children + queue
  {
    q := queue;
    var i := 0;
    while i < |children|
      invariant 0 <= i <= |children|
      invariant q == children[..i] + queue
    {
      q := q[..i] + [children[i]] + q[i..];
      i := i + 1;
    }
  }

  /** Taking the front node off the worklist and putting its children in its place visits it in document order. */
  lemma VisitStep(root: XmlNode, visited: seq<XmlNode>, queue: seq<XmlNode>)
    requires |queue| > 0 && visited + Preorder(queue) == Preorder([root])
    ensures (visited + [queue[0]]) + Preorder(queue[0].children + queue[1..]) == Preorder([root])
    ensures |Preorder(queue[0].children + queue[1..])| < |Preorder(queue)|
  {
    var current, rest := queue[0], queue[1..];
    PreorderAppend(current.children, rest);
    var remaining := Preorder(current.children) + Preorder(rest);
    assert Preorder(queue) == [current] + remaining;
    assert (visited + [current]) + remaining == visited + ([current] + remaining);
  }

  /** An error element at the front of the worklist, after nodes that were none, is the first one. */
  lemma FoundAtFront(root: XmlNode, visited: seq<XmlNode>, queue: seq<XmlNode>, coll: Collation)
    requires |queue| > 0 && visited + Preorder(queue) == Preorder([root])
    requires forall j :: 0 <= j < |visited| ==> !IsErrorElement(visited[j], coll)
    requires IsErrorElement(queue[0], coll)
    ensures FindErrorElement(root, coll) == Some(queue[0])
  {
    var s := Preorder([root]);
    assert Preorder(queue)[0] == queue[0];
    assert s[|visited|] == queue[0];
    forall j | 0 <= j < |visited| ensures !IsErrorElement(s[j], coll) {
      assert s[j] == visited[j];
    }
  }

  /** A search that visited every node without meeting an error element finds none. */
  lemma NoErrorElement(root: XmlNode, visited: seq<XmlNode>, coll: Collation)
    requires visited == Preorder([root])
    requires forall j :: 0 <= j < |visited| ==> !IsErrorElement(visited[j], coll)
    ensures FindErrorElement(root, coll) == None
  {
  }

  /**
    The try block of `Parse`: a worklist search in document order for the first error
    element, then the scan of its children.  A document that failed to load, and a
    conversion that throws, end the search with the values read so far.
   */
  method ScanDocument(doc: Option<XmlNode>, coll: Collation, toInt32: Conversion)
    returns (errorCode: int32, errorText: Option<string>)
    ensures Fields(errorCode, errorText) == ExtractFields(doc, coll, toInt32)
  {
    errorCode, errorText := -1, None;
    if doc.None? {
      return;
    }
    var root := doc.value;
    var queue := [root];
    ghost var visited: seq<XmlNode> := [];
    while |queue| > 0
      invariant visited + Preorder(queue) == Preorder([root])
      invariant forall j :: 0 <= j < |visited| ==> !IsErrorElement(visited[j], coll)
      invariant errorCode == -1 && errorText == None
      decreases |Preorder(queue)|
    {
      ghost var before := queue;
      var current := queue[0];
      queue := queue[1..];
      if IsErrorElement(current, coll) {
        FoundAtFront(root, visited, before, coll);
        errorCode, errorText := ScanErrorElement(current, coll, toInt32);
        return;
      } else if |current.children| > 0 {
        queue := InsertChildren(current.children, queue);
      } else {
        assert queue == current.children + queue;
      }
      VisitStep(root, visited, before);
      visited := visited + [current];
    }
    NoErrorElement(root, visited, coll);
  }

  /** A UPnP error: the code and the text a device reported. */
  class UPnPException {
    var errorCode: int32
    var errorText: string

    constructor (errorCode: int32, errorText: string)
      ensures ErrorCode() == errorCode && ErrorText() == errorText
    {
      this.errorCode := errorCode;
      this.errorText := errorText;
    }

    function ErrorCode(): int32
      reads this
    {
      errorCode
    }

    function ErrorText(): string
      reads this
    {
      errorText
    }

    /** Parses a UPnP error from the XML error document of `stream`. */
    static method Parse(stream: XmlStream, coll: Collation, toInt32: Conversion)
      returns (r: Result<UPnPException, Error>)
      ensures r.Failure? <==> ParseOutcome(stream, coll, toInt32).Failure?
      ensures r.Failure? ==> r.error == ParseOutcome(stream, coll, toInt32).error
      ensures r.Success? ==> (
        && fresh(r.value)
        && (r.value.ErrorCode(), r.value.ErrorText()) == ParseOutcome(stream, coll, toInt32).value)
    {
      if stream.NullStream? {
        return Failure(ArgumentNull);
      }
      var errorCode, errorText := ScanDocument(if stream.Document? then Some(stream.root) else None,
                                               coll, toInt32);
      if errorCode == -1 || errorText.None? {
        return Failure(ParseFailed);
      }
      var e := new UPnPException(errorCode, errorText.value);
      return Success(e);
    }
  }
}
