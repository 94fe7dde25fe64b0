# Blob storage client facade: a verified model

This project models the core of `BlobClient`, a thin C# facade over the Azure Blob Storage SDK.
It covers three parts:

- **The listing drain** (`GetContainerListAsync`). It asks the service for one page of blob
  items at a time. The first request carries a null continuation token; each later request
  carries the token the previous page returned. Every item is appended to one list, and the
  loop stops after the first page whose token is null.
- **The download destination name** (`DownloadBlob`). The file written is `sourceFile` with
  every ".txt" replaced by "_DOWNLOADED.txt". The caller's `destinationFile` argument is
  discarded.
- **Container provisioning** (`GetContainerAsync`). It creates the container, then sets its
  public access to `Blob`, then returns the reference.

Modules:

- `Wrappers` (wrappers.dfy): `Option`, `Result`, `Outcome`.
- `Storage` (wrappers.dfy): the service errors that the SDK raises as exceptions.
- `Listing` (listing.dfy): the page model and the drain.
- `Naming` (naming.dfy): .NET's ordinal `String.Replace` and the download name.
- `Provisioning` (provisioning.dfy): the service state and the create-then-set-permissions sequence.

How the service is modelled:

- **Listing.** One enumeration session is a `Backend`: the finite sequence of pages the service
  would serve, plus an optional failure. A request with a null token gets page 0. A request with
  the token of page `i` gets page `i + 1`. `WellFormed` states that the session is honest: every
  page but the last has a token, and tokens are not reused. The failure, if present, answers the
  request after the last page; it stands for a page fetch that throws. `GetContainerList`
  returns the list and also the tokens of the requests it made, so the token threading is in
  its contract.
- **Provisioning.** The account is a `StorageService` object. It maps the names of existing
  containers to their public-access level, and it logs every request it receives. Whether the
  service refuses a request for reasons outside the model (authorization, naming rules,
  availability) is an input `fault` of that request.

Behaviour of the code that a reader might not expect:

- `CreateAsync` (BlobClient.cs:41) is not create-if-absent: it fails on a name that already
  exists, and the permission step is then never reached. `ProvisionTwice` shows a second
  provisioning of the same name failing with `ContainerAlreadyExists`.
- Every ".txt" in the name is replaced, wherever it occurs and not only as a final extension, and
  a name without ".txt" is left unchanged (BlobClient.cs:91). `TwoOccurrences` shows a name with
  two ".txt" getting two markers.
- Failures are exceptions that propagate to the caller (BlobClient.cs:18). The model returns a
  `Result` or `Outcome` carrying the `StorageError`.

## Model

| member | source | states |
|---|---|---|
| `Listing.GetContainerList` | storage-blobs-dotnet-quickstart/BlobClient.cs:59-77 | Makes one request per page, plus the failing one, and always at least one. The first request has a null token; request `i` carries the token of page `i - 1`, so every later request has a non-null token. With no failure the result is the concatenation of all pages' items. A failing fetch returns that error and no partial list. |
| `Listing.AddAll` | storage-blobs-dotnet-quickstart/BlobClient.cs:70-73 | The `foreach` appends exactly the page's items, in order, after the items already collected. |
| `Listing.Fetch` | storage-blobs-dotnet-quickstart/BlobClient.cs:66 | Models the service's answer to `ListBlobsSegmentedAsync(null, token)`: a null token gets page 0, the token of page `i` gets page `i + 1`, and after the last page the request gets the session's failure. Its contract says every page served belongs to the session and every error is the session's failure or `InvalidContinuation`; the page-by-page relation is `FetchFollowsToken`. |
| `Listing.TokenIndex` | storage-blobs-dotnet-quickstart/BlobClient.cs:66 | The service finds the page a token continues from: the first page that returned that token, or none. |
| `Listing.FetchFollowsToken` | storage-blobs-dotnet-quickstart/BlobClient.cs:63-69 | In an honest session, a request carrying the null token, or the token of page `k - 1`, gets page `k`. Once the pages run out it gets the failure. A request is only made while a page or a failure remains. |
| `Listing.NullTokenEndsSession` | storage-blobs-dotnet-quickstart/BlobClient.cs:74 | A null token can only come from the last page of a session that does not fail, so stopping at the first null token drains every page. |
| `Listing.ConcatStep` | storage-blobs-dotnet-quickstart/BlobClient.cs:70-73 | Draining one more page appends exactly that page's items. |
| `Listing.ConcatLength` | storage-blobs-dotnet-quickstart/BlobClient.cs:61-76 | The drained list's length is the sum of the page lengths. |
| `Listing.ConcatAppend` | storage-blobs-dotnet-quickstart/BlobClient.cs:64-74 | Draining two runs of pages in turn gives the first run's items followed by the second's. |
| `Listing.ConcatAt` | storage-blobs-dotnet-quickstart/BlobClient.cs:70-73 | Item `j` of page `i` is at position (items on pages before `i`) + `j`. This gives page-arrival order, then in-page order, with nothing lost. |
| `Listing.ConcatFrom` | storage-blobs-dotnet-quickstart/BlobClient.cs:70-73 | Every position of the drained list holds item `j` of some page `i`, at exactly that offset. No item is invented. |
| `Listing.EmptyPageDoesNotStop` | storage-blobs-dotnet-quickstart/BlobClient.cs:69-74 | A page with a non-null token, even one with no items, is followed by another request. |
| `Listing.SinglePage` | storage-blobs-dotnet-quickstart/BlobClient.cs:64-74 | A session of one page with a null token has no failure and drains to exactly that page's items. |
| `Naming.DownloadDestination` | storage-blobs-dotnet-quickstart/BlobClient.cs:87-91 | The destination depends on `sourceFile` only. Its length is `|sourceFile| + 11 ×` (non-overlapping ".txt" occurrences). Without a ".txt" it equals `sourceFile`. |
| `Naming.Replace` | storage-blobs-dotnet-quickstart/BlobClient.cs:91 | Models .NET's ordinal `String.Replace(string, string)` for a non-empty pattern: scan left to right, replace the leftmost match, resume after the matched text, so matches never overlap. Its contract says a replacement at least as long as the pattern never shortens the string; the exact behaviour is given by `ReplaceFirst`, `NoOccurrence` and `ReplaceLength`. |
| `Naming.ReplaceLength` | storage-blobs-dotnet-quickstart/BlobClient.cs:91 | Replacing changes the length by `|replacement| - |pattern|` per non-overlapping occurrence. |
| `Naming.NoOccurrence` | storage-blobs-dotnet-quickstart/BlobClient.cs:91 | The occurrence count is zero exactly when the pattern occurs nowhere, and then the replace is the identity. |
| `Naming.ReplaceFirst` | storage-blobs-dotnet-quickstart/BlobClient.cs:91 | Given text `a` with no match before the pattern, `a + pattern + b` becomes `a + replacement + Replace(b)`. The scan resumes on the original text after the match, so the inserted text is never scanned again. The match counts one occurrence more than `b` has. |
| `Naming.SingleOccurrence` | storage-blobs-dotnet-quickstart/BlobClient.cs:90-91 | A name with one ".txt" and no other '.' gets "_DOWNLOADED" inserted before that ".txt". |
| `Naming.TwoOccurrences` | storage-blobs-dotnet-quickstart/BlobClient.cs:91 | A name with two ".txt" gets one marker before each: every occurrence is replaced, one marker per original occurrence. |
| `Naming.ReportExample` | storage-blobs-dotnet-quickstart/BlobClient.cs:90-91 | "report.txt" is downloaded to "report_DOWNLOADED.txt", whatever destination the caller passes. |
| `Provisioning.CreateOutcome` | storage-blobs-dotnet-quickstart/BlobClient.cs:41 | Create succeeds exactly when the name is free and the service does not refuse. An existing name gives `ContainerAlreadyExists`. |
| `Provisioning.SetPermissionsOutcome` | storage-blobs-dotnet-quickstart/BlobClient.cs:44-49 | Setting permissions succeeds exactly when the container exists and the service does not refuse. A missing container gives `ContainerNotFound`. |
| `Provisioning.StorageService.Create` | storage-blobs-dotnet-quickstart/BlobClient.cs:41 | Logs the create request. A successful create adds the container with no public access; a failed one changes no container. |
| `Provisioning.StorageService.SetPermissions` | storage-blobs-dotnet-quickstart/BlobClient.cs:49 | Logs the request. Success overwrites the container's access level; failure changes nothing. |
| `Provisioning.GetContainer` | storage-blobs-dotnet-quickstart/BlobClient.cs:38-52 | Create is requested first. A failed create returns its error, leaves the containers unchanged and sends no permission request. After a successful create, `Blob` access is requested. On success the reference named `name` is returned; if setting permissions fails, that error is returned and the container remains with no public access. |
| `Provisioning.ProvisionTwice` | storage-blobs-dotnet-quickstart/BlobClient.cs:38-52 | Provisioning a new name twice succeeds the first time and fails the second with `ContainerAlreadyExists`. The second attempt sends only a create request. |

## Left out

- `CloudStorageAccount.Parse` and `CreateCloudBlobClient` (the constructors, BlobClient.cs:20-31): connection-string parsing is SDK code whose behaviour is not visible here.
- `GetContainerReference`: modelled only as building a `ContainerRef` from the name, with no service call, which is what a reference is.
- The blocking `.Result` wrappers `GetContainer` and `GetContainerList` (BlobClient.cs:33-36 and 54-57): async plumbing only. The Dafny members `Provisioning.GetContainer` and `Listing.GetContainerList` keep these names but model the async methods they wrap, `GetContainerAsync` and `GetContainerListAsync`.
- `UploadBlob` (BlobClient.cs:79-85): the blob is named `localFileName` and the file content is transferred by the SDK. The transfer is file and network I/O and is not modelled.
- The transfer in `DownloadBlob` (`DownloadToFileAsync` with `FileMode.Create`, BlobClient.cs:94) and its console output (BlobClient.cs:92-93): file I/O and printing. Only the name transform is modelled.
- `async void` fire-and-forget scheduling of upload and download: concurrency is not modelled.
- Listing against a dishonest service that repeats tokens forever: `WellFormed` is a precondition of `GetContainerList`, and the drain's termination relies on it.
- Listing item type and token type: both are type parameters, because `IListBlobItem` and `BlobContinuationToken` are opaque SDK types.
- Provisioning faults: a service refusal for reasons the model cannot see is an input to each request, not a decision the model makes.
- DownloadDestination: does not model a null `sourceFile`, for which `sourceFile.Replace` (BlobClient.cs:91) throws `NullReferenceException`; Dafny strings cannot be null. The same holds for the `name` of `GetContainer`.
- DownloadDestination: C# strings are UTF-16 code units, while a Dafny string is a sequence of Unicode scalar values. A name holding a lone surrogate cannot be represented, and lengths of names outside the Basic Multilingual Plane are counted differently. The +11 per ".txt" formula holds under either count, because ".txt" and "_DOWNLOADED.txt" are ASCII.
- CreateOutcome: checks "name already exists" before any other refusal, so an existing name reports `ContainerAlreadyExists` even when the service would also refuse the request for another reason. The service's own order of checks is not visible here; this order is a modelling choice.
