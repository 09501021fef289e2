# Loan documents tab and group requests

This project models two small pieces of a web front end for a core-banking platform.

- **The documents tab of a loan** (`LoanDocuments.LoanDocumentsTab`). The tab holds the list of
  documents attached to one loan and the `status` and `choice` fields.
  - When the route resolves, every document record is annotated in place. It gets the URL of its
    attachment, and its `fileIsImage` flag is raised when its file name or its MIME type looks like
    an image.
  - At initialisation, `choice` is raised for the three loan statuses that allow actions.
  - After a confirmed upload the tab appends one record. After a confirmed delete it removes one
    record by index, with JavaScript `splice` semantics.
- **The groups service** (`Groups`). Each of its calls builds a request descriptor: verb, path,
  query parameters and an optional body.
  - `GetGroups` starts from five fixed parameters and then folds over the filters. Each filter with
    a truthy value replaces or adds one parameter.
  - The other calls are single-expression builders.

`Text` models the JavaScript built-ins these use:
- `toLowerCase`, over ASCII only;
- `indexOf`;
- `Number.prototype.toString` on integers;
- truthiness of an optional string.

`Text` also splits and joins strings at a separator, which is how the lemmas read paths and URLs
back.

Files: `wrappers.dfy` (Option), `text.dfy`, `groups.dfy`, `loan_documents.dfy`.

## Model

| member | source | states |
|---|---|---|
| LoanDocuments.LoanDocumentsTab.constructor | src/app/loans/loans-view/loan-documents-tab/loan-documents-tab.component.ts:52-62 | the tab starts with the loan from the parent route, an empty list, and `choice` false (undefined in JavaScript, so falsy) |
| LoanDocuments.LoanDocumentsTab.GetLoanDocumentsData | src/app/loans/loans-view/loan-documents-tab/loan-documents-tab.component.ts:74-91 | every element of the array is replaced by its annotated form, in place and at the same index, so length and order are kept; the shown list is then exactly that array's contents |
| LoanDocuments.AnnotateRecord | src/app/loans/loans-view/loan-documents-tab/loan-documents-tab.component.ts:75-88 | the loop body (URL, then the file-name test, then the type test) yields exactly `Annotated` of the record |
| LoanDocuments.AnnotationEffect | src/app/loans/loans-view/loan-documents-tab/loan-documents-tab.component.ts:75-88 | annotation sets `docUrl`, and that URL names the record's own loan and document; the flag is true iff either image test matches or it was already true; it is never lowered; every other field is unchanged |
| LoanDocuments.AnnotationIdempotent | src/app/loans/loans-view/loan-documents-tab/loan-documents-tab.component.ts:75-88 | annotating a record twice gives the same record as annotating it once |
| LoanDocuments.DocUrlRoundTrip | src/app/loans/loans-view/loan-documents-tab/loan-documents-tab.component.ts:77 | stripping the server URL from the attachment URL and splitting at '/' gives back the loan id and the document id it was built from (for a tenant id without '/') |
| LoanDocuments.DocUrlInjective | src/app/loans/loans-view/loan-documents-tab/loan-documents-tab.component.ts:77 | two records get the same attachment URL only if their loan ids and document ids are equal |
| LoanDocuments.AttachmentPathSegments | src/app/loans/loans-view/loan-documents-tab/loan-documents-tab.component.ts:77 | the URL after the server part has the segments "", "loans", loan id, "documents", document id, "attachment?tenantIdentifier=" + tenant |
| LoanDocuments.ImageTestsAreSubstringTests | src/app/loans/loans-view/loan-documents-tab/loan-documents-tab.component.ts:79-88 | a name counts as an image iff it is present, non-empty, and its lower-cased form contains ".jpg", ".jpeg" or ".png" anywhere; a type counts iff it is present, non-empty and contains "image" |
| LoanDocuments.ImageExtensionAnywhere | src/app/loans/loans-view/loan-documents-tab/loan-documents-tab.component.ts:79-83 | an image extension in any mix of cases, anywhere in a file name (not only at its end), flags the file |
| LoanDocuments.ImageWordAnywhere | src/app/loans/loans-view/loan-documents-tab/loan-documents-tab.component.ts:84-88 | "image" in any mix of cases, anywhere in the MIME type, flags the file |
| LoanDocuments.LoanDocumentsTab.NgOnInit | src/app/loans/loans-view/loan-documents-tab/loan-documents-tab.component.ts:64-68 | `status` becomes the loan's status; `choice` becomes true for "Submitted and pending approval", "Active" or "Approved" and is otherwise left as it was |
| LoanDocuments.LoanDocumentsTab.UploadDocument | src/app/loans/loans-view/loan-documents-tab/loan-documents-tab.component.ts:97-113 | a confirmed dialog plus a server reply appends exactly one record at the end (reply id, "loans", loan id, dialog name and description, file name, no URL, no flag); otherwise the list is unchanged |
| LoanDocuments.LoanDocumentsTab.DeleteDocument | src/app/loans/loans-view/loan-documents-tab/loan-documents-tab.component.ts:122-127 | a confirmed and acknowledged delete makes the list `splice(index, 1)` of the old one; otherwise the list is unchanged |
| LoanDocuments.SpliceOne | src/app/loans/loans-view/loan-documents-tab/loan-documents-tab.component.ts:125 | `splice(index, 1)` removes the element at an index in range, counts a negative index from the end, removes the first element for an index below -length, and removes nothing for an index at or past the end; the length drops by one exactly when it removes |
| LoanDocuments.SpliceRemovesOne | src/app/loans/loans-view/loan-documents-tab/loan-documents-tab.component.ts:125 | for an index in range, exactly that element leaves the multiset, and the others keep their relative order |
| Groups.GetGroups | src/app/groups/groups.service.ts:29-44 | a GET on "/groups" with no body, where each key's value is that of the last filter with a truthy value for the key, else the base value |
| Groups.ListingParams | src/app/groups/groups.service.ts:30-42 | the keys are the five base keys plus the keys of the truthy filters, and their number is between 5 and 5 plus the number of truthy filters; offset and limit read back as the given numbers, and paged is "true", unless a filter replaced them |
| Groups.LastTruthyKeys | src/app/groups/groups.service.ts:37-42 | a filter key gets a value iff some filter with that key has a truthy value |
| Groups.TruthyKeysBound | src/app/groups/groups.service.ts:37-42 | the truthy filters add at most one distinct key each |
| Groups.BaseParamsKeys | src/app/groups/groups.service.ts:30-35 | the listing starts with exactly the five keys offset, limit, sortOrder, orderBy and paged |
| Groups.OfficeGroupsRequest | src/app/groups/groups.service.ts:50-53 | a GET on "/groups" with no body and the single parameter officeId, which reads back as the given id |
| Groups.GroupDataRequest | src/app/groups/groups.service.ts:59-62 | a GET on the segments "", "groups", group id, with associations = "all" as its only parameter |
| Groups.GroupSummaryRequest | src/app/groups/groups.service.ts:68-72 | a GET on "/runreports/GroupSummaryCounts" with exactly R_groupId = group id and genericResultSet = "false" |
| Groups.GroupAccountsRequest | src/app/groups/groups.service.ts:78-80 | a GET on the segments "", "groups", group id, "accounts", with no parameters and no body |
| Groups.NoteCollectionRequests | src/app/groups/groups.service.ts:86-97 | listing and creating notes are GET and POST on the segments "", "groups", group id, "notes"; POST forwards the note unchanged; neither has parameters |
| Groups.NoteItemRequests | src/app/groups/groups.service.ts:104-114 | editing and deleting a note are PUT and DELETE on the segments "", "groups", group id, "notes", note id; PUT forwards the note unchanged; neither has parameters |
| Text.IndexOfSpec | src/app/loans/loans-view/loan-documents-tab/loan-documents-tab.component.ts:80 | `indexOf` is -1 iff the pattern does not occur; otherwise it is the first position where it occurs |
| Text.ToLowerAt | src/app/loans/loans-view/loan-documents-tab/loan-documents-tab.component.ts:80 | lower-casing maps each character on its own: ASCII capitals to small letters, everything else unchanged |
| Text.ToLowerIdempotent | src/app/loans/loans-view/loan-documents-tab/loan-documents-tab.component.ts:85 | lower-casing twice is lower-casing once |
| Text.IntToStringRoundTrip | src/app/groups/groups.service.ts:31-32 | the decimal rendering of an integer parses back to that integer |
| Text.IntToStringInjective | src/app/groups/groups.service.ts:51 | distinct integers render as distinct strings |
| Text.IntToStringChars | src/app/loans/loans-view/loan-documents-tab/loan-documents-tab.component.ts:77 | a rendered integer is non-empty and holds only digits and '-', never '/' |
| Text.NatToStringValue | src/app/groups/groups.service.ts:31-32 | the digits of a rendered natural number denote that number |
| Text.JoinSplit | src/app/loans/loans-view/loan-documents-tab/loan-documents-tab.component.ts:77 | joining the pieces of a split gives back the string |
| Text.SplitPiecesFree | src/app/loans/loans-view/loan-documents-tab/loan-documents-tab.component.ts:77 | no piece of a split contains the separator |
| Text.SplitJoin | src/app/groups/groups.service.ts:105 | splitting a join of separator-free segments gives back the segments |

## Left out

- HTTP sending, Observables and `subscribe`: the model covers only the request descriptors and the state after a reply. The dialog answer and the server reply are method parameters: an `Option` of the dialog result, an `Option` of the created id, and booleans for a delete.
- The order in which `route.data` and `route.parent.data` deliver is not modelled. The constructor receives the loan, and `GetLoanDocumentsData` is called separately.
- LoanDocuments.LoanDocumentsTab.GetLoanDocumentsData: in the source, `loanDocuments` is the very array that was annotated. Here the field receives a copy of the array's contents, so later aliasing between the route's array and the field is not modelled.
- Framework plumbing is not modelled: the MatDialog, MatTableDataSource, paginator and sort wiring, `renderRows()`, FormData and `console.log` (including the FormData sent with the upload).
- `settingsService.serverUrl` and the tenant identifier from the environment are plain string parameters.
- Text.ToLower: lower-cases ASCII letters only, not full Unicode `toLowerCase`.
- Text.IntToString: renders integers only. The source's ids, offset and limit are JavaScript numbers; fractions, exponent notation, NaN and a missing (`undefined`) id are not modelled.
- HttpParams is a map: its wire format (key order, URL encoding) is library behaviour.
- The `type` property of a document and of a filter is a Dafny keyword, so it is named `mimeType` and `key` here.
- LoanDocuments.DocUrlRoundTrip: holds only for a tenant id without '/'. Ids are integers, so their renderings contain no '/'.
- Groups.GroupDataRequest, Groups.GroupAccountsRequest, Groups.NoteCollectionRequests and Groups.NoteItemRequests: the path segments are stated only for ids without '/'. The source inserts ids unencoded, so an id with '/' would address another path.
- Groups.GroupSummaryRequest and Groups.OfficeGroupsRequest: state the fixed path as a whole string, not as segments.
- src/app/groups/groups.module.ts declares Angular wiring only and has no behaviour to state.
- The upload and delete calls of the loans service are not part of this model; only their replies are.
