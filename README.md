# LumiSoft MIME / UPnP helpers: a Dafny model

This project models three small pieces of the LumiSoft.Net library and proves
properties about them.

- **`MIME_b_MultipartEncrypted`** is the body of a `multipart/encrypted` MIME entity
  (section 2.2 of RFC 1847). Its constructor refuses a content type whose
  `type/subtype` is not `multipart/encrypted`, ignoring case. Its static `Parse`
  checks its arguments in a fixed order: owner, default content type, stream, then
  the owner's content type and its `boundary` parameter. Only then does it build the
  body from the owner's content type and hand it to the generic multipart parser,
  whose exceptions propagate.
  The model is module `MimeMultipartEncrypted`. It has a pure guard chain
  (`CheckParse`, `ConstructorError`) and a class `MultipartEncryptedBody` whose
  `Create`, `Parse` and `ParseInternal` methods follow the source step by step.
- **`UPnP_Exception.Parse`** reads a UPnP error out of an XML error document. It
  searches the document with an explicit worklist in document order (preorder). It
  stops at the first `UPnPError` element, ignoring case. It then scans that
  element's direct children for `errorCode` and `errorDescription`, and the last
  child of each kind wins. The model is module `UPnP`. `ScanDocument` keeps the
  worklist loop and the child loop. It is proved equal to the specification
  functions `Preorder`, `FirstErrorIndex`, `ScanChildren` and `ExtractFields`, and
  the lemmas about those functions state the source's promises.
- **`String2`** is a comparison shim. It provides `Equals` for six comparison
  modes, and `StartsWith` / `EndsWith` with explicit null handling. The model is
  module `String2`. A null string is `None`. The culture-sensitive comparisons are a
  `Collation` value. The prefix and suffix tests are proved to be exactly the
  prefix and suffix relations under ordinal comparison. They are proved to be the
  folded prefix and suffix relations under ordinal case-insensitive comparison.

Foreign collaborators become parameters:
- the runtime's culture comparison is `Collation`;
- `Convert.ToInt32` is a `Conversion`, a function `string -> Option<int32>`;
- what `XmlDocument.Load` makes of the stream is `XmlStream`
  (`NullStream | Unloadable | Document(root)`).

Where RFC 1847 would demand more checking than the code does, the model follows the code:
- the boundary check refuses only a null `boundary`; an empty one passes
  (`EmptyBoundaryPasses`);
- the number of parts is not checked (RFC 1847 asks for two);
- the body is built from the owner's content type, and the default content type is
  only tested for null (`DefaultContentTypeOnlyNullChecked`).

## Model

| member | source | states |
|---|---|---|
| `String2.Equals` | SimplePOP3/DotNetCoreFix/String2.cs:121-132 | The shim agrees with the runtime's `string.Equals` in every mode: the invariant-culture modes go to the culture comparison, the others to the built-in equality. Two nulls are equal, one null is unequal to anything, and ordinal mode is value equality |
| `String2.OrdinalModesIgnoreCollation` | SimplePOP3/DotNetCoreFix/String2.cs:131 | Under `Ordinal` and `OrdinalIgnoreCase` the result depends only on the two strings and the mode, never on the culture tables |
| `String2.AsciiCollation` | SimplePOP3/DotNetCoreFix/String2.cs:123-129 | A concrete culture comparison exists whose case-insensitive equality on ASCII strings is equality after folding case |
| `String2.Substring` | SimplePOP3/DotNetCoreFix/String2.cs:76 | `Substring(start, length)` is defined only inside the string; its result has `length` characters, each taken from `start` on |
| `String2.StartsWith` | SimplePOP3/DotNetCoreFix/String2.cs:65-78 | Two nulls give true, exactly one null gives false, and a `value` longer than `some` gives false |
| `String2.EndsWith` | SimplePOP3/DotNetCoreFix/String2.cs:81-94 | Same null and length rules as `StartsWith`; the substring taken from the end is always in range once the length guard has passed |
| `String2.StartsWithCompares` | SimplePOP3/DotNetCoreFix/String2.cs:76-77 | Once the guards pass, `StartsWith` is the mode's equality of the first `len(value)` characters of `some` with `value` |
| `String2.EndsWithCompares` | SimplePOP3/DotNetCoreFix/String2.cs:92-93 | Once the guards pass, `EndsWith` is the mode's equality of the last `len(value)` characters of `some` with `value` |
| `String2.StartsWithOrdinal` | SimplePOP3/DotNetCoreFix/String2.cs:73-77 | Under ordinal comparison, `StartsWith(s, v)` holds if and only if `v` is a prefix of `s` |
| `String2.EndsWithOrdinal` | SimplePOP3/DotNetCoreFix/String2.cs:89-93 | Under ordinal comparison, `EndsWith(s, v)` holds if and only if `v` is a suffix of `s` |
| `String2.EmptyValueMatches` | SimplePOP3/DotNetCoreFix/String2.cs:73-77 | The empty value is a prefix and a suffix of every non-null string |
| `String2.StartsWithOrdinalIgnoreCase` | SimplePOP3/DotNetCoreFix/String2.cs:73-77 | Under ordinal case-insensitive comparison, `StartsWith(s, v)` holds if and only if folded `v` is a prefix of folded `s` |
| `String2.EndsWithOrdinalIgnoreCase` | SimplePOP3/DotNetCoreFix/String2.cs:89-93 | Under ordinal case-insensitive comparison, `EndsWith(s, v)` holds if and only if folded `v` is a suffix of folded `s` |
| `MimeMultipartEncrypted.IsEncryptedType` | Net/MIME/MIME_b_MultipartEncrypted.cs:22 | The subtype test is the current culture's case-insensitive equality with `multipart/encrypted`. Under a current culture that folds ASCII case, an ASCII `type/subtype` passes exactly when it equals `multipart/encrypted` after folding case |
| `MimeMultipartEncrypted.ConstructorError` | Net/MIME/MIME_b_MultipartEncrypted.cs:18-25 | The constructor returns normally exactly when the content type is non-null and its `type/subtype` equals `multipart/encrypted` under current-culture case-insensitive equality. A null content type gives an argument-null error; any other subtype gives the argument error |
| `MimeMultipartEncrypted.CheckParse` | Net/MIME/MIME_b_MultipartEncrypted.cs:39-52 | On success the owner and its content type are non-null, that content type is the one the body is built from, and it has a boundary and the encrypted subtype. The default content type and the stream are non-null |
| `MimeMultipartEncrypted.CheckParseReportsFirstViolation` | Net/MIME/MIME_b_MultipartEncrypted.cs:39-52 | Each requirement is stated on its own: owner, default content type and stream non-null, boundary present, encrypted subtype. `Parse`'s checks succeed if and only if none is broken. Otherwise they report the broken requirement that comes first in the order owner, default content type, stream, boundary, subtype, even when later ones are broken too |
| `MimeMultipartEncrypted.MissingBoundaryWhateverSubtype` | Net/MIME/MIME_b_MultipartEncrypted.cs:48-50 | An owner's content type without a boundary fails with the missing-boundary parse error, whatever its subtype |
| `MimeMultipartEncrypted.EmptyBoundaryPasses` | Net/MIME/MIME_b_MultipartEncrypted.cs:48 | An empty boundary passes the check; the outcome then depends only on the subtype |
| `MimeMultipartEncrypted.DefaultContentTypeOnlyNullChecked` | Net/MIME/MIME_b_MultipartEncrypted.cs:42-44 | The outcome is the same for any two non-null default content types |
| `MimeMultipartEncrypted.SignedSubtypeRejected` | Net/MIME/MIME_b_MultipartEncrypted.cs:22-24 | Under a collation that folds ASCII case, `multipart/signed` is refused with the argument error, whatever its boundary |
| `MimeMultipartEncrypted.OwnerSubtypeDecides` | Net/MIME/MIME_b_MultipartEncrypted.cs:42-52 | Under a current culture that folds ASCII case, an owner declared `multipart/signed` with a boundary fails with the constructor's argument error, even when the default content type is `multipart/encrypted` |
| `MimeMultipartEncrypted.EncryptedInAnyCaseAccepted` | Net/MIME/MIME_b_MultipartEncrypted.cs:22 | Under a current culture that folds ASCII case, every ASCII spelling of `multipart/encrypted` that differs only in letter case is accepted |
| `MimeMultipartEncrypted.MultipartEncryptedBody.Create` | Net/MIME/MIME_b_MultipartEncrypted.cs:20-25 | Fails exactly when `ConstructorError` reports an error, and with that error. Otherwise it gives a new body holding that content type, not yet filled in |
| `MimeMultipartEncrypted.MultipartEncryptedBody.ParseInternal` | Net/MIME/MIME_b_MultipartEncrypted.cs:53 | The generic multipart parser receives one more call, with this owner, type and stream, on this body. It reads the stream only forward, and it may throw a parse error, about which nothing more is known |
| `MimeMultipartEncrypted.MultipartEncryptedBody.Parse` | Net/MIME/MIME_b_MultipartEncrypted.cs:36-56 | When `CheckParse` fails, `Parse` fails with that same error, builds no body and leaves the stream untouched. When `CheckParse` succeeds, a new encrypted body is built from the owner's content type and the generic parser is called on it exactly once, with the owner, the owner's `type/subtype` and the stream. `Parse` then returns that body, or fails with the parser's error |
| `UPnP.PreorderAppend` | SimplePOP3/Code/UPnP/UPnP_Exception.cs:68-71 | The document order of two sibling lists one after the other is the document order of the first followed by that of the second |
| `UPnP.VisitStep` | SimplePOP3/Code/UPnP/UPnP_Exception.cs:53-54 | Take the front node off the worklist and put its children, in order, ahead of the rest. The visited nodes followed by the worklist's document order are still the document's order, and fewer nodes are left to visit |
| `UPnP.InsertChildren` | SimplePOP3/Code/UPnP/UPnP_Exception.cs:68-71 | The `Insert(i, …)` loop leaves the worklist as the node's children in order, followed by the previous remainder |
| `UPnP.IsNamed` | SimplePOP3/Code/UPnP/UPnP_Exception.cs:56-61 | A node name matches exactly when the invariant culture's case-insensitive comparison says so. Under an invariant culture that folds ASCII case, ASCII names match exactly when they are equal after folding case |
| `UPnP.FindErrorElement` | SimplePOP3/Code/UPnP/UPnP_Exception.cs:50-73 | The element the search finds is a node of the document named `UPnPError`, ignoring case. When none is found, no node of the document has that name |
| `UPnP.FirstErrorIndex` | SimplePOP3/Code/UPnP/UPnP_Exception.cs:56 | The index found is that of an error element, and no earlier node is one; no error element means the length |
| `UPnP.FindErrorElementIsFirst` | SimplePOP3/Code/UPnP/UPnP_Exception.cs:52-73 | The element found is an error element whose position in document order has no error element before it. None is found if and only if the document holds no element named `UPnPError`, ignoring case |
| `UPnP.FirstErrorIgnoresLaterNodes` | SimplePOP3/Code/UPnP/UPnP_Exception.cs:66 | Nodes after the first error element in document order never change which element is found |
| `UPnP.FoundAtFront` | SimplePOP3/Code/UPnP/UPnP_Exception.cs:56 | Suppose the front of the worklist is an error element and no visited node was one. Then it is the first error element of the document |
| `UPnP.NoErrorElement` | SimplePOP3/Code/UPnP/UPnP_Exception.cs:52 | A worklist emptied without meeting an error element means the document holds none |
| `UPnP.Kind` | SimplePOP3/Code/UPnP/UPnP_Exception.cs:58-63 | A child is a code child exactly when it is named `errorCode`. It is a description child exactly when it is named `errorDescription` and not `errorCode`, since the code test comes first |
| `UPnP.ScanChildren` | SimplePOP3/Code/UPnP/UPnP_Exception.cs:57-76 | After the scan, the code is either the one held before it or the converted text of one of the code children. The text is either the one held before or the inner text of one of the description children |
| `UPnP.ExtractFields` | SimplePOP3/Code/UPnP/UPnP_Exception.cs:42-76 | Any value other than -1 and null comes from a loaded document that has an error element. A code other than -1 is the converted text of one of that element's code children, and a non-null text is the inner text of one of its description children |
| `UPnP.ScanErrorElement` | SimplePOP3/Code/UPnP/UPnP_Exception.cs:57-64 | The `foreach` over the error element's direct children yields exactly `ScanChildren` of them: code and text overwritten child by child, stopping at a conversion that throws |
| `UPnP.ScanLastWins` | SimplePOP3/Code/UPnP/UPnP_Exception.cs:57-64 | When every `errorCode` child converts, the code is that of the last `errorCode` child and the text is that of the last `errorDescription` child. A child matching both names counts as `errorCode`. With no child of a kind, that value is the one held before the scan |
| `UPnP.ScanStopsAtFailedConversion` | SimplePOP3/Code/UPnP/UPnP_Exception.cs:59-76 | A conversion that throws ends the scan with exactly the values the earlier children set; no later child is examined |
| `UPnP.ScanDocument` | SimplePOP3/Code/UPnP/UPnP_Exception.cs:42-76 | The try block, with its worklist loop, yields exactly `ExtractFields`. For a document that failed to load this is -1 and null. Otherwise it is the scan of the first error element in document order, or -1 and null when there is none |
| `UPnP.ParseOutcome` | SimplePOP3/Code/UPnP/UPnP_Exception.cs:36-82 | The argument-null error comes exactly when the stream is null. A success never carries code -1 |
| `UPnP.NoErrorElementFails` | SimplePOP3/Code/UPnP/UPnP_Exception.cs:42-80 | A document that failed to load, or one without an error element, gives the parse failure |
| `UPnP.ParseReadsLastChildren` | SimplePOP3/Code/UPnP/UPnP_Exception.cs:57-82 | Take a document whose first error element converts every code. Parsing succeeds if and only if that element has a code child whose last one is not -1 and has a description child; it then returns the last of each |
| `UPnP.UPnPException.constructor` | SimplePOP3/Code/UPnP/UPnP_Exception.cs:22-26 | `ErrorCode` and `ErrorText` return exactly the code and text given |
| `UPnP.UPnPException.Parse` | SimplePOP3/Code/UPnP/UPnP_Exception.cs:36-83 | Fails exactly when `ParseOutcome` fails, with the same error. Otherwise it returns a new exception whose `ErrorCode` and `ErrorText` are the extracted code and text |

## Left out

- The generic multipart parser `ParseInternal`, the `MIME_b_Multipart` base class, `MIME_Entity`, the parsing of `MIME_h_ContentType` and `SmartStream` are not part of this model. The owner entity holds only its content type. The content type holds only `type/subtype` and `boundary`. The stream holds only a read position.
- MimeMultipartEncrypted.MultipartEncryptedBody.ParseInternal: records the call it receives, and may read the stream some way forward and throw. It does not model the boundary scan, the child entities it fills in, when it throws, or which exception type it throws. All of its exceptions are the one error `BodyParseFailed`.
- MimeMultipartEncrypted.MultipartEncryptedBody.Create: does not model any check the base class constructor may make. The argument-null error for a null content type is taken from the constructor's documented exceptions.
- RFC 1847's two-part structure is not checked, because the source does not check it.
- FoldsAsciiCase is an assumption about the culture tables, made by `SignedSubtypeRejected`, `OwnerSubtypeDecides` and `EncryptedInAnyCaseAccepted`. Real cultures need not meet it: under a Turkish current culture, ASCII `I` is not the upper case of `i`, so `MULTIPART/ENCRYPTED` is refused.
- Lengths and offsets in `StartsWith`, `EndsWith` and `Substring` are counted in characters (Unicode scalar values), not in UTF-16 code units as in .NET. A character outside the Basic Multilingual Plane counts once here and twice in .NET, so the length guard can differ. Lone surrogates, which a .NET string may hold, are not represented.
- Culture-sensitive comparison (`CultureInfo`, `CompareInfo`, `CurrentCultureIgnoreCase`) comes from foreign globalisation tables. It is the `Collation` parameter. `OrdinalIgnoreCase` is modelled by folding ASCII letters only, not by the runtime's full case mapping.
- `String2.Compare` and the `InvariantCultureIgnoreCaseImpl` comparer and hash methods are left out. They are thin wrappers over the runtime's ordering and hashing.
- A `StringComparison2` value outside its six named members is left out. The runtime would throw an argument error for it, and a Dafny datatype cannot hold it. The cast from `StringComparison2` to `StringComparison` maps each mode to the runtime mode of the same name and value.
- `XmlDocument.Load` and real `XmlNode` behaviour come from a foreign XML library. The parsed document is an input tree of names, children and inner text.
- `Convert.ToInt32` is a partial function parameter; its decimal grammar and its overflow rules are not modelled.
- The exception's message text and the rest of the `Exception` base class are left out.

