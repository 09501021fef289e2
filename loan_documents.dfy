/**
 * The state of the loan documents tab: the list of documents shown for one loan, each annotated
 * with the URL of its attachment and an "is an image" flag, and the `choice` flag derived from
 * the loan's status. Dialogs, the table widget and the HTTP calls are outside the model; their
 * results reach the methods below as parameters.
 */
module LoanDocuments {
  import opened Wrappers
  import opened Text

  /**
   * One document record as the server returns it. `fileName`, `mimeType` (the record's `type`
   * property), `docUrl` and `fileIsImage` may be absent.
   */
  datatype Document = Document(
    id: int,
    parentEntityType: string,
    parentEntityId: int,
    name: string,
    description: string,
    fileName: Option<string>,
    mimeType: Option<string>,
    docUrl: Option<string>,
    fileIsImage: Option<bool>)

  /** The loan the tab belongs to: its id and the value of its status. */
  datatype LoanDetails = LoanDetails(id: int, status: string)

  datatype UploadFile = UploadFile(name: string)

  /** What the upload dialog returns when it is confirmed. */
  datatype UploadDialogResult = UploadDialogResult(fileName: string, description: string, file: UploadFile)

  // ---------------------------------------------------------------- attachment URL

  /** The attachment URL of document `id` of loan `parentEntityId`. */
  function DocUrl(serverUrl: string, parentEntityId: int, id: int, tenantId: string): string {
    serverUrl + "/loans/" + IntToString(parentEntityId) + "/documents/" + IntToString(id)
      + "/attachment?tenantIdentifier=" + tenantId
  }

  /**
   * The server's side of the URL: strips the server prefix, splits the rest at '/' and reads back
   * the loan id and the document id, provided the remaining segments are the expected ones.
   */
  function AttachmentOf(serverUrl: string, tenantId: string, url: string): Option<(int, int)> {
    if |url| < |serverUrl| || url[..|serverUrl|] != serverUrl then None
    else
      var segs := Split(url[|serverUrl|..], '/');
      if |segs| == 6 && segs[0] == "" && segs[1] == "loans" && segs[3] == "documents"
         && segs[5] == "attachment?tenantIdentifier=" + tenantId
      then
        match (ParseInt(segs[2]), ParseInt(segs[4]))
        case (Some(loanId), Some(docId)) => Some((loanId, docId))
        case _ => None
      else None
  }

  /** The part of the attachment URL after the server URL. */
  function AttachmentPath(parentEntityId: int, id: int, tenantId: string): string {
    "/loans/" + IntToString(parentEntityId) + "/documents/" + IntToString(id)
      + "/attachment?tenantIdentifier=" + tenantId
  }

  lemma LoansDocumentsPrefix(p: string, rest: string)
    ensures "/loans/" + p + "/documents/" + rest == "" + "/" + ("loans" + "/" + (p + "/" + ("documents" + "/" + rest)))
  {
    assert "/loans/" == "/" + "loans" + "/";
    assert "/documents/" == "/" + "documents" + "/";
  }

  lemma AttachmentSuffix(i: string, tenantId: string)
    ensures i + "/attachment?tenantIdentifier=" + tenantId == i + "/" + ("attachment?tenantIdentifier=" + tenantId)
  {
    assert "/attachment?tenantIdentifier=" == "/" + "attachment?tenantIdentifier=";
  }

  lemma AttachmentSegmentHasNoSlash(tenantId: string)
    requires '/' !in tenantId
    ensures '/' !in "attachment?tenantIdentifier=" + tenantId
  {
    var last := "attachment?tenantIdentifier=" + tenantId;
    forall k | 0 <= k < |last| ensures last[k] != '/' {
      if k >= 28 {
        assert last[k] == tenantId[k - 28];
      }
    }
  }

  /** The attachment path splits into the loan id and the document id between the fixed segments. */
  lemma AttachmentPathSegments(parentEntityId: int, id: int, tenantId: string)
    requires '/' !in tenantId
    ensures Split(AttachmentPath(parentEntityId, id, tenantId), '/')
      == ["", "loans", IntToString(parentEntityId), "documents", IntToString(id), "attachment?tenantIdentifier=" + tenantId]
  {
    var p, i := IntToString(parentEntityId), IntToString(id);
    var last := "attachment?tenantIdentifier=" + tenantId;
    AttachmentSegmentHasNoSlash(tenantId);
    IntToStringChars(parentEntityId);
    IntToStringChars(id);
    var t4 := i + "/" + last;
    var t3 := "documents" + "/" + t4;
    var t2 := p + "/" + t3;
    var t1 := "loans" + "/" + t2;
    assert AttachmentPath(parentEntityId, id, tenantId) == "" + "/" + t1 by {
      var b := i + "/attachment?tenantIdentifier=" + tenantId;
      assert AttachmentPath(parentEntityId, id, tenantId) == "/loans/" + p + "/documents/" + b;
      AttachmentSuffix(i, tenantId);
      LoansDocumentsPrefix(p, b);
    }
    SplitOfSegment(last, '/');
    SplitAfterSegment(i, last, '/');
    SplitAfterSegment("documents", t4, '/');
    SplitAfterSegment(p, t3, '/');
    SplitAfterSegment("loans", t2, '/');
    SplitAfterSegment("", t1, '/');
  }

  lemma ConcatAfterPrefix(s: string, a: string, b: string, c: string, d: string, e: string, f: string)
    ensures s + a + b + c + d + e + f == s + (a + b + c + d + e + f)
  {
  }

  /** The attachment URL names exactly the loan and the document it was built from. */
  lemma DocUrlRoundTrip(serverUrl: string, parentEntityId: int, id: int, tenantId: string)
    requires '/' !in tenantId
    ensures AttachmentOf(serverUrl, tenantId, DocUrl(serverUrl, parentEntityId, id, tenantId)) == Some((parentEntityId, id))
  {
    var url := DocUrl(serverUrl, parentEntityId, id, tenantId);
    var tail := AttachmentPath(parentEntityId, id, tenantId);
    ConcatAfterPrefix(serverUrl, "/loans/", IntToString(parentEntityId), "/documents/", IntToString(id),
                      "/attachment?tenantIdentifier=", tenantId);
    assert url[..|serverUrl|] == serverUrl && url[|serverUrl|..] == tail;
    AttachmentPathSegments(parentEntityId, id, tenantId);
    IntToStringRoundTrip(parentEntityId);
    IntToStringRoundTrip(id);
  }

  /** Two documents get the same attachment URL only if they have the same loan and document ids. */
  lemma DocUrlInjective(serverUrl: string, tenantId: string, p1: int, i1: int, p2: int, i2: int)
    requires '/' !in tenantId
    requires DocUrl(serverUrl, p1, i1, tenantId) == DocUrl(serverUrl, p2, i2, tenantId)
    ensures p1 == p2 && i1 == i2
  {
    DocUrlRoundTrip(serverUrl, p1, i1, tenantId);
    DocUrlRoundTrip(serverUrl, p2, i2, tenantId);
  }

  // ---------------------------------------------------------------- image test

  /** The file name is present, non-empty, and its lower-cased form contains ".jpg", ".jpeg" or ".png". */
  predicate NameLooksLikeImage(fileName: Option<string>) {
    Truthy(fileName)
    && (IndexOf(ToLower(fileName.value), ".jpg") != -1
        || IndexOf(ToLower(fileName.value), ".jpeg") != -1
        || IndexOf(ToLower(fileName.value), ".png") != -1)
  }

  /** The MIME type is present, non-empty, and its lower-cased form contains "image". */
  predicate TypeLooksLikeImage(mimeType: Option<string>) {
    Truthy(mimeType) && IndexOf(ToLower(mimeType.value), "image") != -1
  }

  /** Both image tests are substring tests on the lower-cased text, not suffix tests. */
  lemma ImageTestsAreSubstringTests(fileName: Option<string>, mimeType: Option<string>)
    ensures NameLooksLikeImage(fileName) <==>
      fileName.Some? && fileName.value != []
      && (Contains(ToLower(fileName.value), ".jpg") || Contains(ToLower(fileName.value), ".jpeg")
          || Contains(ToLower(fileName.value), ".png"))
    ensures TypeLooksLikeImage(mimeType) <==>
      mimeType.Some? && mimeType.value != [] && Contains(ToLower(mimeType.value), "image")
  {
    if fileName.Some? {
      var lower := ToLower(fileName.value);
      IndexOfSpec(lower, ".jpg");
      IndexOfSpec(lower, ".jpeg");
      IndexOfSpec(lower, ".png");
    }
    if mimeType.Some? {
      IndexOfSpec(ToLower(mimeType.value), "image");
    }
  }

  // ---------------------------------------------------------------- annotation of one record

  /** A record after the body of the annotation loop has run on it. */
  function Annotated(d: Document, serverUrl: string, tenantId: string): Document {
    d.(docUrl := Some(DocUrl(serverUrl, d.parentEntityId, d.id, tenantId)),
       fileIsImage := if NameLooksLikeImage(d.fileName) || TypeLooksLikeImage(d.mimeType) then Some(true)
                      else d.fileIsImage)
  }

  /**
   * Annotation sets the attachment URL of the record, raises the image flag when either test
   * matches, leaves the flag as it was otherwise (it never lowers it), and changes nothing else.
   */
  lemma AnnotationEffect(d: Document, serverUrl: string, tenantId: string)
    ensures var r := Annotated(d, serverUrl, tenantId);
      && r.docUrl.Some?
      && ('/' !in tenantId ==> AttachmentOf(serverUrl, tenantId, r.docUrl.value) == Some((d.parentEntityId, d.id)))
      && (r.fileIsImage == Some(true) <==>
            NameLooksLikeImage(d.fileName) || TypeLooksLikeImage(d.mimeType) || d.fileIsImage == Some(true))
      && (r.fileIsImage != Some(true) ==> r.fileIsImage == d.fileIsImage)
      && r.(docUrl := d.docUrl, fileIsImage := d.fileIsImage) == d
  {
    if '/' !in tenantId {
      DocUrlRoundTrip(serverUrl, d.parentEntityId, d.id, tenantId);
    }
  }

  /** Annotating a record a second time changes nothing. */
  lemma AnnotationIdempotent(d: Document, serverUrl: string, tenantId: string)
    ensures Annotated(Annotated(d, serverUrl, tenantId), serverUrl, tenantId) == Annotated(d, serverUrl, tenantId)
  {
  }

  lemma {:induction false} LowerCasedInfix(a: string, m: string, b: string)
    ensures OccursAt(ToLower(a + m + b), ToLower(m), |a|)
  {
    var s := a + m + b;
    ToLowerAt(s);
    ToLowerAt(m);
    var lower := ToLower(s);
    assert lower[|a|..|a| + |m|] == ToLower(m) by {
      forall i | 0 <= i < |m| ensures lower[|a| + i] == ToLower(m)[i] {
        assert s[|a| + i] == m[i];
      }
    }
  }

  /**
   * A file name counts as an image when ".jpg", ".jpeg" or ".png", in any mix of cases, occurs
   * anywhere in it, not only at its end: "Scan.PNG.pdf" is flagged.
   */
  lemma ImageExtensionAnywhere(a: string, ext: string, b: string)
    requires ToLower(ext) == ".jpg" || ToLower(ext) == ".jpeg" || ToLower(ext) == ".png"
    ensures NameLooksLikeImage(Some(a + ext + b))
  {
    LowerCasedInfix(a, ext, b);
    IndexOfSpec(ToLower(a + ext + b), ToLower(ext));
  }

  /** A MIME type counts as an image when "image", in any mix of cases, occurs anywhere in it. */
  lemma ImageWordAnywhere(a: string, word: string, b: string)
    requires ToLower(word) == "image"
    ensures TypeLooksLikeImage(Some(a + word + b))
  {
    LowerCasedInfix(a, word, b);
    IndexOfSpec(ToLower(a + word + b), "image");
  }

  /**
   * The body of the loop over the resolved documents, applied to one record `ele`: set its
   * attachment URL, then raise its image flag if its file name or its MIME type looks like an image.
   */
  method AnnotateRecord(ele: Document, serverUrl: string, tenantId: string) returns (r: Document)
    ensures r == Annotated(ele, serverUrl, tenantId)
  {
    var loandocs := serverUrl + "/loans/" + IntToString(ele.parentEntityId) + "/documents/"
      + IntToString(ele.id) + "/attachment?tenantIdentifier=" + tenantId;
    r := ele.(docUrl := Some(loandocs));
    if Truthy(r.fileName) {
      var lower := ToLower(r.fileName.value);
      if IndexOf(lower, ".jpg") != -1 || IndexOf(lower, ".jpeg") != -1 || IndexOf(lower, ".png") != -1 {
        r := r.(fileIsImage := Some(true));
      }
    }
    if Truthy(r.mimeType) {
      if IndexOf(ToLower(r.mimeType.value), "image") != -1 {
        r := r.(fileIsImage := Some(true));
      }
    }
  }

  // ---------------------------------------------------------------- status rule

  /** The statuses under which the tab offers its actions. */
  predicate AllowsChoice(status: string) {
    status == "Submitted and pending approval" || status == "Active" || status == "Approved"
  }

  // ---------------------------------------------------------------- list updates

  /** The record appended after a successful upload; it has no URL and no image flag yet. */
  function UploadedRecord(resourceId: int, loanId: int, dialog: UploadDialogResult): Document {
    Document(resourceId, "loans", loanId, dialog.fileName, dialog.description, Some(dialog.file.name),
             None, None, None)
  }

  /** Where `splice(index, 1)` starts: a negative index counts from the end, and both are clamped. */
  function SpliceStart(len: nat, index: int): (k: nat)
    ensures k <= len
  {
    if index < 0 then (if len + index < 0 then 0 else len + index)
    else if index > len then len
    else index
  }

  /** `s.splice(index, 1)`: removes the element at the start position, if there is one there. */
  function SpliceOne<T>(s: seq<T>, index: int): (r: seq<T>)
    ensures 0 <= index < |s| ==> r == s[..index] + s[index + 1..]
    ensures -|s| <= index < 0 ==> r == s[..|s| + index] + s[|s| + index + 1..]
    ensures index < -|s| && s != [] ==> r == s[1..]
    ensures index >= |s| ==> r == s
    ensures |r| == if s == [] || index >= |s| then |s| else |s| - 1
  {
    var k := SpliceStart(|s|, index);
    if k < |s| then s[..k] + s[k + 1..] else s
  }

  /** Removing an index in range takes away exactly that element and keeps every other one. */
  lemma SpliceRemovesOne<T>(s: seq<T>, index: int)
    requires 0 <= index < |s|
    ensures multiset(SpliceOne(s, index)) + multiset{s[index]} == multiset(s)
    ensures forall j :: 0 <= j < |s| - 1 ==> SpliceOne(s, index)[j] == if j < index then s[j] else s[j + 1]
  {
    assert s == s[..index] + [s[index]] + s[index + 1..];
  }

  // ---------------------------------------------------------------- the component

  class LoanDocumentsTab {
    /** The documents shown in the table. */
    var loanDocuments: seq<Document>
    /** The loan whose documents these are. */
    var loanDetailsData: LoanDetails
    /** The loan's status, copied at initialisation. */
    var status: string
    /** Whether the tab offers its actions; JavaScript leaves it undefined (falsy) until set. */
    var choice: bool

    /** The component once the parent route has delivered the loan. */
    constructor (loanDetailsData: LoanDetails)
      ensures this.loanDetailsData == loanDetailsData
      ensures loanDocuments == [] && status == "" && !choice
    {
      this.loanDetailsData := loanDetailsData;
      loanDocuments := [];
      status := "";
      choice := false;
    }

    /**
     * getLoanDocumentsData: annotates every record of `data` in place, then shows that list.
     * `serverUrl` and `tenantId` are the configured server URL and tenant identifier.
     */
    method GetLoanDocumentsData(data: array<Document>, serverUrl: string, tenantId: string)
      modifies this`loanDocuments, data
      ensures forall j :: 0 <= j < data.Length ==> data[j] == Annotated(old(data[j]), serverUrl, tenantId)
      ensures loanDocuments == data[..]
    {
      for i := 0 to data.Length
        invariant forall j :: 0 <= j < i ==> data[j] == Annotated(old(data[j]), serverUrl, tenantId)
        invariant forall j :: i <= j < data.Length ==> data[j] == old(data[j])
      {
        data[i] := AnnotateRecord(data[i], serverUrl, tenantId);
      }
      loanDocuments := data[..];
    }

    /** ngOnInit: copies the loan's status and raises `choice` for the three statuses that allow it. */
    method NgOnInit()
      modifies this`status, this`choice
      ensures status == loanDetailsData.status
      ensures choice == (old(choice) || AllowsChoice(loanDetailsData.status))
    {
      status := loanDetailsData.status;
      if status == "Submitted and pending approval" || status == "Active" || status == "Approved" {
        choice := true;
      }
    }

    /**
     * uploadDocument, after the dialog closes: `dialogResponse` is None when the dialog was dismissed,
     * `resourceId` is None when the server did not reply with a created document.
     */
    method UploadDocument(dialogResponse: Option<UploadDialogResult>, resourceId: Option<int>)
      modifies this`loanDocuments
      ensures dialogResponse.None? || resourceId.None? ==> loanDocuments == old(loanDocuments)
      ensures dialogResponse.Some? && resourceId.Some? ==>
        loanDocuments == old(loanDocuments) + [UploadedRecord(resourceId.value, loanDetailsData.id, dialogResponse.value)]
    {
      if dialogResponse.Some? {
        var dialog := dialogResponse.value;
        if resourceId.Some? {
          loanDocuments := loanDocuments + [Document(resourceId.value, "loans", loanDetailsData.id,
            dialog.fileName, dialog.description, Some(dialog.file.name), None, None, None)];
        }
      }
    }

    /**
     * deleteDocument, after the dialog closes: `confirmed` is the dialog's `delete` answer and
     * `serverDeleted` whether the server acknowledged the deletion.
     */
    method DeleteDocument(documentId: int, index: int, confirmed: bool, serverDeleted: bool)
      modifies this`loanDocuments
      ensures loanDocuments == if confirmed && serverDeleted then SpliceOne(old(loanDocuments), index)
                               else old(loanDocuments)
    {
      if confirmed && serverDeleted {
        var start := SpliceStart(|loanDocuments|, index);
        if start < |loanDocuments| {
          loanDocuments := loanDocuments[..start] + loanDocuments[start + 1..];
        }
      }
    }
  }
}
