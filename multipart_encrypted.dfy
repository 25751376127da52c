/**
  The `multipart/encrypted` body of RFC 1847 (section 2.2): the checks that guard its
  construction and its parsing, ahead of the generic multipart parser that fills it in.
 */
module MimeMultipartEncrypted {
  import opened Wrappers
  import opened String2

  /** What this body reads of a `Content-Type` header: `type/subtype` and the `boundary` parameter. */
  datatype ContentType = ContentType(typeWithSubtype: string, boundary: Option<string>)

  /** A MIME entity; only its (possibly null) content type is read here. */
  class Entity {
    var contentType: Option<ContentType>
  }

  /** The stream a body is read from; only how far it has been read is modelled. */
  class SmartStream {
    var position: nat
  }

  /** The parameters an `ArgumentNullException` can name. */
  datatype Argument = OwnerArg | DefaultContentTypeArg | StreamArg | ContentTypeArg

  /**
    The exceptions thrown here: `ArgumentNullException`, the `ParseException` for a
    missing boundary, the `ArgumentException` for a content type of another subtype,
    and whatever the generic multipart parser throws while it reads the parts.
   */
  datatype Error = ArgumentNull(param: Argument) | MissingBoundaryParameter | SubtypeMismatch | BodyParseFailed

  const EncryptedType: string := "multipart/encrypted"

  /** The subtype test: `type/subtype` equals `multipart/encrypted` under current-culture case-insensitive equality. */
  predicate IsEncryptedType(typeWithSubtype: string, coll: Collation)
    ensures IsEncryptedType(typeWithSubtype, coll) <==> coll.currentEq(typeWithSubtype, EncryptedType, true)
    ensures FoldsAsciiCase(coll.currentEq) && IsAscii(typeWithSubtype) ==>
      (IsEncryptedType(typeWithSubtype, coll) <==> FoldCase(typeWithSubtype) == FoldCase(EncryptedType))
  {
    BuiltinEquals(Some(typeWithSubtype), Some(EncryptedType), CurrentCultureIgnoreCase, coll)
  }

  /** What the constructor throws for a content type, or `None` when it returns normally. */
  function ConstructorError(contentType: Option<ContentType>, coll: Collation): (r: Option<Error>)
    ensures r == None <==> contentType.Some? && IsEncryptedType(contentType.value.typeWithSubtype, coll)
    ensures r.Some? ==> r.value == (if contentType.None? then ArgumentNull(ContentTypeArg) else SubtypeMismatch)
  {
    match contentType
    case None => Some(ArgumentNull(ContentTypeArg))
    case Some(ct) => if IsEncryptedType(ct.typeWithSubtype, coll) then None else Some(SubtypeMismatch)
  }

  /** The owner entity as `Parse` sees it: null, or the content type it carries. */
  datatype EntityView = EntityView(contentType: Option<ContentType>)

  /**
    The guard chain of `Parse`, then the constructor's own check: the content type the
    body is built from, or the exception thrown first.
   */
  function CheckParse(owner: Option<EntityView>, defaultContentType: Option<ContentType>,
                      streamPresent: bool, coll: Collation): (r: Result<ContentType, Error>)
    ensures r.Success? ==> owner.Some? && owner.value.contentType == Some(r.value)
    ensures r.Success? ==> r.value.boundary.Some? && IsEncryptedType(r.value.typeWithSubtype, coll)
    ensures r.Success? ==> defaultContentType.Some? && streamPresent
  {
    if owner.None? then Failure(ArgumentNull(OwnerArg))
    else if defaultContentType.None? then Failure(ArgumentNull(DefaultContentTypeArg))
    else if !streamPresent then Failure(ArgumentNull(StreamArg))
    else if owner.value.contentType.None? || owner.value.contentType.value.boundary.None? then
      Failure(MissingBoundaryParameter)
    else
      match ConstructorError(owner.value.contentType, coll)
      case Some(e) => Failure(e)
      case None => Success(owner.value.contentType.value)
  }

  /** The position of each check in the chain. */
  function Rank(e: Error): nat {
    match e
    case ArgumentNull(OwnerArg) => 0
    case ArgumentNull(DefaultContentTypeArg) => 1
    case ArgumentNull(StreamArg) => 2
    case MissingBoundaryParameter => 3
    case SubtypeMismatch => 4
    case ArgumentNull(ContentTypeArg) => 5
    case BodyParseFailed => 6
  }

  /** Every requirement the arguments break, each stated on its own, in no order. */
  ghost function Violations(owner: Option<EntityView>, defaultContentType: Option<ContentType>,
                            streamPresent: bool, coll: Collation): set<Error>
  {
    (if owner.None? then {ArgumentNull(OwnerArg)} else {})
    + (if defaultContentType.None? then {ArgumentNull(DefaultContentTypeArg)} else {})
    + (if !streamPresent then {ArgumentNull(StreamArg)} else {})
    + (if owner.Some? && (owner.value.contentType.None? || owner.value.contentType.value.boundary.None?)
       then {MissingBoundaryParameter} else {})
    + (if owner.Some? && owner.value.contentType.Some?
          && !IsEncryptedType(owner.value.contentType.value.typeWithSubtype, coll)
       then {SubtypeMismatch} else {})
  }

  /**
    `Parse` succeeds exactly when nothing is violated, and otherwise reports the
    violation that comes first in the chain, whatever else is violated too.
   */
  lemma CheckParseReportsFirstViolation(owner: Option<EntityView>, defaultContentType: Option<ContentType>,
                                        streamPresent: bool, coll: Collation)
    ensures var v := Violations(owner, defaultContentType, streamPresent, coll);
      CheckParse(owner, defaultContentType, streamPresent, coll).Success? <==> v == {}
    ensures var v := Violations(owner, defaultContentType, streamPresent, coll);
      var r := CheckParse(owner, defaultContentType, streamPresent, coll);
      r.Failure? ==> r.error in v && forall e :: e in v ==> Rank(r.error) <= Rank(e)
  {
    var v := Violations(owner, defaultContentType, streamPresent, coll);
    var r := CheckParse(owner, defaultContentType, streamPresent, coll);
    if r.Success? {
      assert v == {};
    } else {
      assert r.error in v;
    }
  }

  /** A missing boundary is reported whatever the subtype, and before it. */
  lemma MissingBoundaryWhateverSubtype(typeWithSubtype: string, defaultContentType: ContentType,
                                       coll: Collation)
    ensures CheckParse(Some(EntityView(Some(ContentType(typeWithSubtype, None)))),
                       Some(defaultContentType), true, coll) == Failure(MissingBoundaryParameter)
  {
  }

  /** Only a null boundary is refused: an empty one passes the boundary check. */
  lemma EmptyBoundaryPasses(typeWithSubtype: string, defaultContentType: ContentType, coll: Collation)
    ensures var r := CheckParse(Some(EntityView(Some(ContentType(typeWithSubtype, Some(""))))),
                                Some(defaultContentType), true, coll);
      r.Success? <==> IsEncryptedType(typeWithSubtype, coll)
  {
  }

  /** The default content type is only tested for null; which one is passed never matters. */
  lemma DefaultContentTypeOnlyNullChecked(owner: Option<EntityView>, d1: ContentType, d2: ContentType,
                                          streamPresent: bool, coll: Collation)
    ensures CheckParse(owner, Some(d1), streamPresent, coll) == CheckParse(owner, Some(d2), streamPresent, coll)
  {
  }

  /** `multipart/signed` is refused by the constructor, whatever its boundary. */
  lemma SignedSubtypeRejected(boundary: Option<string>, coll: Collation)
    requires FoldsAsciiCase(coll.currentEq)
    ensures ConstructorError(Some(ContentType("multipart/signed", boundary)), coll) == Some(SubtypeMismatch)
  {
    var s := "multipart/signed";
    assert IsAscii(s) && IsAscii(EncryptedType);
    assert |FoldCase(s)| != |FoldCase(EncryptedType)|;
  }

  /**
    So an owner declared `multipart/signed` with a boundary fails with the constructor's
    error, even when the default content type is `multipart/encrypted`.
   */
  lemma OwnerSubtypeDecides(boundary: string, coll: Collation)
    requires FoldsAsciiCase(coll.currentEq)
    ensures CheckParse(Some(EntityView(Some(ContentType("multipart/signed", Some(boundary))))),
                       Some(ContentType(EncryptedType, Some(boundary))), true, coll) == Failure(SubtypeMismatch)
  {
    SignedSubtypeRejected(Some(boundary), coll);
  }

  /** Any ASCII spelling of `multipart/encrypted` that differs only in case is accepted. */
  lemma EncryptedInAnyCaseAccepted(typeWithSubtype: string, boundary: Option<string>, coll: Collation)
    requires FoldsAsciiCase(coll.currentEq)
    requires IsAscii(typeWithSubtype) && FoldCase(typeWithSubtype) == FoldCase(EncryptedType)
    ensures ConstructorError(Some(ContentType(typeWithSubtype, boundary)), coll) == None
  {
    assert IsAscii(EncryptedType);
  }

  /** A call the generic multipart parser received: the owner, the type it was told, the stream. */
  datatype PopulateCall = PopulateCall(owner: Entity, typeWithSubtype: string, stream: SmartStream)

  /** A `multipart/encrypted` body. */
  class MultipartEncryptedBody {
    const contentType: ContentType
    /** The calls the generic multipart parser received to fill this body in. */
    ghost var populateCalls: seq<PopulateCall>

    /** Field initialisation; the subtype check is `Create`'s. */
    constructor (contentType: ContentType)
      ensures this.contentType == contentType && populateCalls == []
    {
      this.contentType := contentType;
      populateCalls := [];
    }

    /** The public constructor: refuses a null content type or one of another subtype. */
    static method Create(contentType: Option<ContentType>, coll: Collation)
      returns (r: Result<MultipartEncryptedBody, Error>)
      ensures r.Failure? <==> ConstructorError(contentType, coll).Some?
      ensures r.Failure? ==> Some(r.error) == ConstructorError(contentType, coll)
      ensures r.Success? ==> fresh(r.value) && Some(r.value.contentType) == contentType
                             && r.value.populateCalls == []
    {
      var err := ConstructorError(contentType, coll);
      if err.Some? {
        return Failure(err.value);
      }
      var body := new MultipartEncryptedBody(contentType.value);
      return Success(body);
    }

    /**
      The generic multipart parser, which reads the parts of `body` from `stream`.  It is
      not part of this model: it is represented by the call it receives, by reading the
      stream some way forward, and by an outcome about which nothing is known.
     */
    static method ParseInternal(owner: Entity, typeWithSubtype: string, stream: SmartStream,
                                body: MultipartEncryptedBody)
      returns (failed: Option<Error>)
      modifies body`populateCalls, stream
      ensures body.populateCalls == old(body.populateCalls) + [PopulateCall(owner, typeWithSubtype, stream)]
      ensures stream.position >= old(stream.position)
      ensures failed.Some? ==> failed.value == BodyParseFailed
    {
      body.populateCalls := body.populateCalls + [PopulateCall(owner, typeWithSubtype, stream)];
      var read: nat :| true;
      stream.position := stream.position + read;
      var throws: bool :| true;
      failed := if throws then Some(BodyParseFailed) else None;
    }

    /**
      Parses a body: checks the arguments and the owner's content type, builds the body
      from that content type and hands it, once, to the generic multipart parser, whose
      exception propagates.  `parsed` is the body that was built, returned or not.
     */
    static method Parse(owner: Entity?, defaultContentType: Option<ContentType>, stream: SmartStream?,
                        coll: Collation)
      returns (r: Result<MultipartEncryptedBody, Error>, ghost parsed: MultipartEncryptedBody?)
      modifies stream
      ensures CheckParse(View(owner), defaultContentType, stream != null, coll).Failure? ==>
        && r == Failure(CheckParse(View(owner), defaultContentType, stream != null, coll).error)
        && parsed == null
        && (stream != null ==> unchanged(stream))
      ensures CheckParse(View(owner), defaultContentType, stream != null, coll).Success? ==> (
        && owner != null && stream != null && owner.contentType.Some? && parsed != null
        && fresh(parsed)
        && parsed.contentType == owner.contentType.value
        && parsed.populateCalls == [PopulateCall(owner, owner.contentType.value.typeWithSubtype, stream)]
        && stream.position >= old(stream.position)
        && (r.Success? || r == Failure(BodyParseFailed))
        && (r.Success? ==> r.value == parsed))
    {
      parsed := null;
      if owner == null {
        return Failure(ArgumentNull(OwnerArg)), parsed;
      }
      if defaultContentType.None? {
        return Failure(ArgumentNull(DefaultContentTypeArg)), parsed;
      }
      if stream == null {
        return Failure(ArgumentNull(StreamArg)), parsed;
      }
      if owner.contentType.None? || owner.contentType.value.boundary.None? {
        return Failure(MissingBoundaryParameter), parsed;
      }
      var created := Create(owner.contentType, coll);
      if created.Failure? {
        return Failure(created.error), parsed;
      }
      var body := created.value;
      parsed := body;
      var failed := ParseInternal(owner, owner.contentType.value.typeWithSubtype, stream, body);
      if failed.Some? {
        return Failure(failed.value), parsed;
      }
      return Success(body), parsed;
    }
  }

  /** The owner as the guard chain sees it. */
  function View(owner: Entity?): (v: Option<EntityView>)
    reads owner
    ensures v.None? <==> owner == null
    ensures v.Some? ==> v.value.contentType == owner.contentType
  {
    if owner == null then None else Some(EntityView(owner.contentType))
  }
}
