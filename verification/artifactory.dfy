/** The Artifactory REST helpers shared by the packaging and the installer scripts:
    URL building, the checksum-deploy upload of one file, and how the answers to a
    folder-info GET and to a DELETE are read. The server is an oracle from request
    to HTTP status code; nothing here talks to a network. */
module Artifactory {
  import opened Text

  /** An HTTP status code. */
  type Status = int

  /** A local file as an upload sees it: an opaque handle and the hex SHA-1 digest
      of its contents (the digest is taken as given, not computed). */
  datatype LocalFile = LocalFile(handle: nat, sha1: string)

  /** The requests the scripts send. */
  datatype Request =
    | ChecksumDeploy(url: string, sha1: string)  // PUT, no body, X-Checksum-Deploy: true
    | PutBody(url: string, file: LocalFile)      // PUT with the file as body
    | GetInfo(url: string)                       // GET of the storage API folder info
    | GetFile(url: string)                       // streamed GET of a file
    | Delete(url: string)

  /** The status code the server answers each request with. */
  type Server = Request -> Status

  // ---------------------------------------------------------------------------
  // URLs
  // ---------------------------------------------------------------------------

  /** `art_url`: the base without its trailing slashes, "/artifactory/", and the
      path without its leading slashes. */
  function ArtUrl(base: string, path: string): string {
    RStrip(base, '/') + "/artifactory/" + LStrip(path, '/')
  }

  /** `art_api_url`: as `ArtUrl`, under "/artifactory/api/". */
  function ArtApiUrl(base: string, path: string): string {
    RStrip(base, '/') + "/artifactory/api/" + LStrip(path, '/')
  }

  /** A base that does not end with '/' and a path that does not start with one are
      joined by exactly "/artifactory/", however many slashes surround the join. */
  lemma ArtUrlJoin(base: string, path: string, m: nat, n: nat)
    requires base == [] || base[|base| - 1] != '/'
    requires path == [] || path[0] != '/'
    ensures ArtUrl(base + Repeat('/', m), Repeat('/', n) + path) == base + "/artifactory/" + path
    ensures ArtApiUrl(base + Repeat('/', m), Repeat('/', n) + path) == base + "/artifactory/api/" + path
  {
    RStripAbsorbs('/', m, base);
    LStripAbsorbs('/', n, path);
    RStripNoop(base, '/');
    LStripNoop(path, '/');
  }

  /** Extra slashes at the end of the base or the start of the path change nothing. */
  lemma ArtUrlSlashInsensitive(base: string, path: string, m: nat, n: nat)
    ensures ArtUrl(base + Repeat('/', m), Repeat('/', n) + path) == ArtUrl(base, path)
    ensures ArtApiUrl(base + Repeat('/', m), Repeat('/', n) + path) == ArtApiUrl(base, path)
  {
    RStripAbsorbs('/', m, base);
    LStripAbsorbs('/', n, path);
  }

  /** Normalising the arguments first is harmless: the URL builders are idempotent
      in their slash handling. */
  lemma ArtUrlNormalised(base: string, path: string)
    ensures ArtUrl(RStrip(base, '/'), LStrip(path, '/')) == ArtUrl(base, path)
    ensures ArtApiUrl(RStrip(base, '/'), LStrip(path, '/')) == ArtApiUrl(base, path)
  {
    RStripNoop(RStrip(base, '/'), '/');
    LStripNoop(LStrip(path, '/'), '/');
  }

  /** An API URL is the plain URL of "api/" followed by the path. */
  lemma ArtApiUrlUnderApi(base: string, path: string)
    ensures ArtApiUrl(base, path) == ArtUrl(base, "api/" + LStrip(path, '/'))
  {
    LStripNoop("api/" + LStrip(path, '/'), '/');
  }

  // ---------------------------------------------------------------------------
  // Single-file upload (art_upload_file)
  // ---------------------------------------------------------------------------

  /** 200 or 201: the server stored the upload. */
  predicate Stored(status: Status) {
    status == 200 || status == 201
  }

  /** The URL a file lands at: `<repo>/<path without leading slashes>` under the base. */
  function UploadUrl(base: string, repo: string, repoPath: string): string {
    ArtUrl(base, repo + "/" + LStrip(repoPath, '/'))
  }

  /** The requests one upload sent, and whether it ended without an error. */
  datatype FileUpload = FileUpload(url: string, requests: seq<Request>, ok: bool)

  /** `art_upload_file`: a checksum-only PUT first; only when the server does not
      store it, one PUT with the body, whose status decides the error. */
  function UploadFile(server: Server, base: string, repo: string, repoPath: string, file: LocalFile): (u: FileUpload)
    ensures u.url == UploadUrl(base, repo, repoPath)
    ensures 1 <= |u.requests| <= 2
    ensures u.requests[0] == ChecksumDeploy(u.url, file.sha1)
    ensures |u.requests| == 2 <==> !Stored(server(u.requests[0]))
    ensures |u.requests| == 2 ==> u.requests[1] == PutBody(u.url, file)
    ensures u.ok <==> Stored(server(ChecksumDeploy(u.url, file.sha1))) || Stored(server(PutBody(u.url, file)))
  {
    var url := UploadUrl(base, repo, repoPath);
    var deploy := ChecksumDeploy(url, file.sha1);
    if Stored(server(deploy)) then FileUpload(url, [deploy], true)
    else
      var put := PutBody(url, file);
      FileUpload(url, [deploy, put], Stored(server(put)))
  }

  /** Leading slashes on the repository path do not change where a file goes. */
  lemma UploadUrlIgnoresLeadingSlashes(base: string, repo: string, repoPath: string, n: nat)
    ensures UploadUrl(base, repo, Repeat('/', n) + repoPath) == UploadUrl(base, repo, repoPath)
  {
    LStripAbsorbs('/', n, repoPath);
  }

  // ---------------------------------------------------------------------------
  // Folder info (art_folder_info) and delete (art_delete_path)
  // ---------------------------------------------------------------------------

  /** How a folder-info answer is read: missing, a listing, or an error. */
  datatype InfoReply<T> = Absent | Listing(body: T) | InfoFailed(status: Status)

  /** The storage-API URL of a folder: `storage/<repo>/<path stripped of '/'>`. */
  function InfoUrl(base: string, repo: string, remotePath: string): string {
    ArtApiUrl(base, "storage/" + repo + "/" + Strip(remotePath, '/'))
  }

  /** `art_folder_info`'s reading of the status: 404 is "no such folder", 200 is
      the JSON listing, anything else raises. */
  function ReadInfo<T>(status: Status, body: T): (r: InfoReply<T>)
    ensures r.Absent? <==> status == 404
    ensures r.Listing? <==> status == 200
    ensures r.Listing? ==> r.body == body
    ensures r.InfoFailed? ==> r.status == status
  {
    if status == 404 then Absent
    else if status != 200 then InfoFailed(status)
    else Listing(body)
  }

  /** Slashes around the remote path do not change the folder-info URL. */
  lemma InfoUrlSlashInsensitive(base: string, repo: string, remotePath: string, m: nat, n: nat)
    ensures InfoUrl(base, repo, Repeat('/', m) + remotePath + Repeat('/', n)) == InfoUrl(base, repo, remotePath)
  {
    StripAbsorbs('/', m, remotePath, n);
  }

  /** The URL a delete is sent to. */
  function DeleteUrl(base: string, repo: string, remotePath: string): string {
    ArtUrl(base, repo + "/" + Strip(remotePath, '/'))
  }

  /** Statuses a delete accepts: done, accepted, no content, or already gone. */
  predicate DeleteAccepted(status: Status) {
    status == 200 || status == 202 || status == 204 || status == 404
  }

  datatype Deletion = Deletion(request: Request, ok: bool)

  /** `art_delete_path`: one DELETE, an error on any status but 200, 202, 204, 404. */
  function DeletePath(server: Server, base: string, repo: string, remotePath: string): (d: Deletion)
    ensures d.request == Delete(DeleteUrl(base, repo, remotePath))
    ensures d.ok <==> server(d.request) in {200, 202, 204, 404}
  {
    var request := Delete(DeleteUrl(base, repo, remotePath));
    Deletion(request, DeleteAccepted(server(request)))
  }

  /** Slashes around the remote path do not change what a delete does. */
  lemma DeleteSlashInsensitive(server: Server, base: string, repo: string, remotePath: string, m: nat, n: nat)
    ensures DeletePath(server, base, repo, Repeat('/', m) + remotePath + Repeat('/', n))
         == DeletePath(server, base, repo, remotePath)
  {
    StripAbsorbs('/', m, remotePath, n);
  }
}
