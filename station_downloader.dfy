/**
 * The station file downloader: for each station name of a table it builds the
 * URL of the station's NetCDF file, requests it, and on status 200 writes the
 * response body into the output folder under the URL's last path segment.
 */
module StationDownloader {
  import opened Outcomes
  import opened Tables
  import opened Text

  newtype byte = x: int | 0 <= x < 256
  type Bytes = seq<byte>

  /** What the server answers to one GET: a status code and the body as the
      sequence of chunks the streaming response delivers. */
  datatype Response = Response(status: int, chunks: seq<Bytes>)

  /** The server, as the files it serves by URL; any other URL is answered 404
      with an empty body. */
  type Server = map<string, Response>

  /** The server's answer to a GET of the URL. */
  function Answer(server: Server, url: string): Response {
    if url in server then server[url] else Response(404, [])
  }

  datatype Error = MissingNameColumn

  const NameColumn: string := "name"
  const Extension: string := ".nc"
  const StatusOk: int := 200

  /** The number of bytes in a chunk sequence. */
  function TotalSize(chunks: seq<Bytes>): nat {
    if chunks == [] then 0 else |chunks[0]| + TotalSize(chunks[1..])
  }

  /** The bytes of a chunk sequence, in order: as many bytes as the chunks hold
      together. */
  function Concat(chunks: seq<Bytes>): (r: Bytes)
    ensures |r| == TotalSize(chunks)
  {
    if chunks == [] then [] else chunks[0] + Concat(chunks[1..])
  }

  /** Writing two runs of chunks one after the other writes their concatenations. */
  lemma {:induction false} ConcatAppend(a: seq<Bytes>, b: seq<Bytes>)
    ensures Concat(a + b) == Concat(a) + Concat(b)
  {
    if a != [] {
      assert (a + b)[1..] == a[1..] + b;
      ConcatAppend(a[1..], b);
    } else {
      assert a + b == b;
    }
  }

  /** The URL of a station's file: it starts with the base URL, continues with the
      stripped name and ends with ".nc". */
  function StationUrl(baseUrl: string, name: string): (u: string)
    ensures |u| == |baseUrl| + |Strip(name)| + |Extension|
    ensures forall k :: 0 <= k < |baseUrl| ==> u[k] == baseUrl[k]
    ensures forall k :: 0 <= k < |Strip(name)| ==> u[|baseUrl| + k] == Strip(name)[k]
    ensures forall k :: 0 <= k < |Extension| ==> u[|u| - |Extension| + k] == Extension[k]
  {
    baseUrl + Strip(name) + Extension
  }

  /** `url.split("/")[-1]`: the part of the URL after its last "/", or the whole URL
      when it has none. */
  function Filename(url: string): (f: string)
    ensures '/' !in f
    ensures |f| <= |url|
  {
    var parts := Split(url, '/');
    if |parts| >= 2 then
      JoinLast(parts, '/');
      parts[|parts| - 1]
    else
      parts[0]
  }

  /** The filename is a suffix of the URL without "/", preceded by a "/" unless it
      is the whole URL. */
  lemma FilenameIsLastSegment(url: string)
    ensures var f := Filename(url);
      && '/' !in f
      && |f| <= |url| && f == url[|url| - |f|..]
      && (|f| < |url| ==> url[|url| - |f| - 1] == '/')
  {
    var parts := Split(url, '/');
    if |parts| >= 2 {
      JoinLast(parts, '/');
    }
  }

  /** A name under which a file can be created inside the folder: joined to the
      folder's path, "" and "." give the folder itself and ".." its parent. */
  predicate IsFileName(f: string) {
    f != [] && f != "." && f != ".."
  }

  /** A URL names a file when its last "/"-separated segment is neither empty nor
      "." nor "..", read off its last three characters. */
  predicate NamesAFile(url: string) {
    var n := |url|;
    && n > 0 && url[n - 1] != '/'
    && !(url[n - 1] == '.' && (n == 1 || url[n - 2] == '/'))
    && !(n >= 2 && url[n - 1] == '.' && url[n - 2] == '.' && (n == 2 || url[n - 3] == '/'))
  }

  /** The URL names a file exactly when its file name is one. */
  lemma FilenameNamesAFile(url: string)
    ensures IsFileName(Filename(url)) <==> NamesAFile(url)
  {
    FilenameIsLastSegment(url);
    var f := Filename(url);
    var n := |url|;
    if f != [] {
      assert url[n - 1] == f[|f| - 1];
    }
    if |f| >= 2 {
      assert url[n - 2] == f[|f| - 2];
    }
    if |f| >= 3 {
      assert url[n - 3] == f[|f| - 3];
    }
    if |f| == 1 && f[0] == '.' {
      assert f == ".";
    }
    if |f| == 2 && f[0] == '.' && f[1] == '.' {
      assert f == "..";
    }
  }

  /** The filename is exactly what follows a "/" when nothing after it is a "/". */
  lemma {:induction false} FilenameAfterSlash(p: string, q: string)
    requires '/' !in q
    ensures Filename(p + "/" + q) == q
  {
    var s := p + "/" + q;
    FilenameIsLastSegment(s);
    assert s[|s| - |q|..] == q;
    assert s[|s| - |q| - 1] == '/';
  }

  /** A URL made of a base ending in "/", a name without "/" and ".nc" names its
      file after the name and ".nc". */
  lemma {:induction false} FilenameOfNamedFile(baseUrl: string, n: string)
    requires |baseUrl| > 0 && baseUrl[|baseUrl| - 1] == '/'
    requires '/' !in n
    ensures Filename(baseUrl + n + Extension) == n + Extension
  {
    var p, e := baseUrl[..|baseUrl| - 1], n + Extension;
    assert '/' !in e by {
      forall i | 0 <= i < |e| ensures e[i] != '/' {
        if i < |n| { assert e[i] == n[i]; } else { assert e[i] == Extension[i - |n|]; }
      }
    }
    assert baseUrl == p + "/";
    assert baseUrl + n + Extension == p + "/" + e;
    FilenameAfterSlash(p, e);
  }

  /** When the base URL ends with "/" and the stripped name has no "/", the file is
      saved under the stripped name followed by ".nc". */
  lemma {:induction false} StationFilename(baseUrl: string, name: string)
    requires |baseUrl| > 0 && baseUrl[|baseUrl| - 1] == '/'
    requires '/' !in Strip(name)
    ensures Filename(StationUrl(baseUrl, name)) == Strip(name) + Extension
  {
    FilenameOfNamedFile(baseUrl, Strip(name));
  }

  /** The output folder after one download from the server's response. */
  function AfterDownload(files: map<string, Bytes>, url: string, resp: Response): (r: map<string, Bytes>)
    ensures resp.status == StatusOk ==> Filename(url) in r && r[Filename(url)] == Concat(resp.chunks)
    ensures resp.status != StatusOk ==> r == files
  {
    if resp.status == StatusOk then files[Filename(url) := Concat(resp.chunks)] else files
  }

  /** On status 200 the file named after the URL holds exactly the body, replacing
      what was there; on any other status nothing changes; no other file is ever
      touched. */
  lemma DownloadTouchesOnlyItsFile(files: map<string, Bytes>, url: string, resp: Response)
    ensures var r := AfterDownload(files, url, resp);
      && (resp.status == StatusOk ==> Filename(url) in r && r[Filename(url)] == Concat(resp.chunks))
      && (resp.status != StatusOk ==> r == files)
      && r.Keys == (if resp.status == StatusOk then files.Keys + {Filename(url)} else files.Keys)
      && (forall f :: f in files && f != Filename(url) ==> r[f] == files[f])
  {
  }

  /** The output folder after downloading the URLs in order from the given server;
      a download never removes a file. */
  function AfterDownloads(files: map<string, Bytes>, urls: seq<string>, server: Server): (r: map<string, Bytes>)
    ensures files.Keys <= r.Keys
  {
    if urls == [] then files
    else
      var last := urls[|urls| - 1];
      AfterDownload(AfterDownloads(files, urls[..|urls| - 1], server), last, Answer(server, last))
  }

  /** Downloading the first i + 1 URLs is downloading the first i, then the next. */
  lemma AfterDownloadsPrefix(files: map<string, Bytes>, urls: seq<string>, i: nat, server: Server)
    requires i < |urls|
    ensures AfterDownloads(files, urls[..i + 1], server) ==
            AfterDownload(AfterDownloads(files, urls[..i], server), urls[i], Answer(server, urls[i]))
  {
    assert urls[..i + 1][..i] == urls[..i];
  }

  /** A file that no successful download is named after keeps its content, and
      stays absent if it was absent. */
  lemma {:induction false} UntouchedUnlessDownloaded(files: map<string, Bytes>, urls: seq<string>, server: Server, f: string)
    requires forall i :: 0 <= i < |urls| && Filename(urls[i]) == f ==> Answer(server, urls[i]).status != StatusOk
    ensures f in AfterDownloads(files, urls, server) <==> f in files
    ensures f in files ==> AfterDownloads(files, urls, server)[f] == files[f]
  {
    if urls != [] {
      var n := |urls|;
      var init := urls[..n - 1];
      UntouchedUnlessDownloaded(files, init, server, f);
      DownloadTouchesOnlyItsFile(AfterDownloads(files, init, server), urls[n - 1], Answer(server, urls[n - 1]));
    }
  }

  /** A file holds the body of the last successful download named after it: the
      body of a successful download stays when every later successful download
      named after the same file brings the same body. */
  lemma {:induction false} LastDownloadWins(files: map<string, Bytes>, urls: seq<string>, server: Server, i: nat)
    requires i < |urls| && Answer(server, urls[i]).status == StatusOk
    requires forall j :: i < j < |urls| && Filename(urls[j]) == Filename(urls[i]) ==>
      (Answer(server, urls[j]).status == StatusOk ==>
         Concat(Answer(server, urls[j]).chunks) == Concat(Answer(server, urls[i]).chunks))
    ensures Filename(urls[i]) in AfterDownloads(files, urls, server)
    ensures AfterDownloads(files, urls, server)[Filename(urls[i])] == Concat(Answer(server, urls[i]).chunks)
  {
    var n := |urls|;
    var init := urls[..n - 1];
    DownloadTouchesOnlyItsFile(AfterDownloads(files, init, server), urls[n - 1], Answer(server, urls[n - 1]));
    if i < n - 1 {
      assert init[i] == urls[i];
      LastDownloadWins(files, init, server, i);
    }
  }

  /** The URLs of the stations of the rows, one per row. */
  function StationUrls(baseUrl: string, rows: seq<map<string, string>>): (urls: seq<string>)
    requires forall i :: 0 <= i < |rows| ==> NameColumn in rows[i]
    ensures |urls| == |rows|
  {
    if rows == [] then []
    else [StationUrl(baseUrl, rows[0][NameColumn])] + StationUrls(baseUrl, rows[1..])
  }

  /** The k-th URL is the URL of the k-th row's station: the URLs follow row order. */
  lemma {:induction false} StationUrlAt(baseUrl: string, rows: seq<map<string, string>>, k: nat)
    requires forall i :: 0 <= i < |rows| ==> NameColumn in rows[i]
    requires k < |rows|
    ensures StationUrls(baseUrl, rows)[k] == StationUrl(baseUrl, rows[k][NameColumn])
  {
    if k > 0 {
      StationUrlAt(baseUrl, rows[1..], k - 1);
    }
  }

  /** A station URL ends with ".nc", so it names a file. */
  lemma StationUrlNamesFile(baseUrl: string, name: string)
    ensures NamesAFile(StationUrl(baseUrl, name))
    ensures IsFileName(Filename(StationUrl(baseUrl, name)))
  {
    var u := StationUrl(baseUrl, name);
    assert u[|u| - 1] == Extension[|Extension| - 1] == 'c';
    FilenameNamesAFile(u);
  }

  /** Every station URL ends with ".nc", so each names a file. */
  lemma StationUrlsNameFiles(baseUrl: string, rows: seq<map<string, string>>)
    requires forall i :: 0 <= i < |rows| ==> NameColumn in rows[i]
    ensures forall k :: 0 <= k < |rows| ==> NamesAFile(StationUrls(baseUrl, rows)[k])
    ensures forall k :: 0 <= k < |rows| ==> IsFileName(Filename(StationUrls(baseUrl, rows)[k]))
  {
    forall k | 0 <= k < |rows|
      ensures NamesAFile(StationUrls(baseUrl, rows)[k])
      ensures IsFileName(Filename(StationUrls(baseUrl, rows)[k]))
    {
      StationUrlAt(baseUrl, rows, k);
      StationUrlNamesFile(baseUrl, rows[k][NameColumn]);
    }
  }

  /** Different names give different file names once the same extension is added. */
  lemma AppendInjective(a: string, b: string, c: string)
    requires a != b
    ensures a + c != b + c
  {
    assert (a + c)[..|a|] == a && (b + c)[..|b|] == b;
  }

  /** With a base URL ending in "/", stripped station names free of "/", and a
      server answering 200 to each, every station ends up in the output folder as
      its stripped name plus ".nc", holding its response body. A station listed
      twice is requested twice and gets the same answer both times. */
  lemma {:induction false} EveryStationSaved(files: map<string, Bytes>, baseUrl: string,
                                             rows: seq<map<string, string>>, server: Server, k: nat)
    requires |baseUrl| > 0 && baseUrl[|baseUrl| - 1] == '/'
    requires forall i :: 0 <= i < |rows| ==> NameColumn in rows[i] && '/' !in Strip(rows[i][NameColumn])
    requires forall i :: 0 <= i < |rows| ==> Answer(server, StationUrl(baseUrl, rows[i][NameColumn])).status == StatusOk
    requires k < |rows|
    ensures Strip(rows[k][NameColumn]) + Extension in AfterDownloads(files, StationUrls(baseUrl, rows), server)
    ensures AfterDownloads(files, StationUrls(baseUrl, rows), server)[Strip(rows[k][NameColumn]) + Extension]
            == Concat(Answer(server, StationUrl(baseUrl, rows[k][NameColumn])).chunks)
  {
    var urls := StationUrls(baseUrl, rows);
    StationUrlAt(baseUrl, rows, k);
    StationFilename(baseUrl, rows[k][NameColumn]);
    forall j | k < j < |urls|
      ensures Filename(urls[j]) == Filename(urls[k]) ==> urls[j] == urls[k]
    {
      StationUrlAt(baseUrl, rows, j);
      StationFilename(baseUrl, rows[j][NameColumn]);
      if Strip(rows[j][NameColumn]) != Strip(rows[k][NameColumn]) {
        AppendInjective(Strip(rows[j][NameColumn]), Strip(rows[k][NameColumn]), Extension);
      }
    }
    LastDownloadWins(files, urls, server, k);
  }

  /** The HTTP side: a server that answers each URL, and the log of the GET
      requests made to it, in order. */
  class HttpClient {
    const server: Server
    var requested: seq<string>

    constructor (server: Server)
      ensures this.server == server && requested == []
    {
      this.server := server;
      requested := [];
    }

    /** One GET request. */
    method Get(url: string) returns (resp: Response)
      modifies this
      ensures requested == old(requested) + [url]
      ensures resp == Answer(server, url)
    {
      requested := requested + [url];
      resp := Answer(server, url);
    }
  }

  /** The output folder: file contents by file name. */
  class OutputFolder {
    var files: map<string, Bytes>

    constructor (files: map<string, Bytes>)
      ensures this.files == files
    {
      this.files := files;
    }

    /** `with open(name, "wb")` followed by one write per chunk: the file is created
        or emptied, then the chunks are appended in order, so it ends up holding
        exactly their concatenation. */
    method WriteChunks(name: string, chunks: seq<Bytes>)
      modifies this
      ensures files == old(files)[name := Concat(chunks)]
    {
      files := files[name := []];
      for i := 0 to |chunks|
        invariant files == old(files)[name := Concat(chunks[..i])]
      {
        assert chunks[..i + 1] == chunks[..i] + [chunks[i]];
        ConcatAppend(chunks[..i], [chunks[i]]);
        assert [chunks[i]][1..] == [];
        assert Concat(chunks[..i + 1]) == Concat(chunks[..i]) + chunks[i];
        files := files[name := files[name] + chunks[i]];
      }
      assert chunks[..|chunks|] == chunks;
    }
  }

  /** `download_file`: fetch the URL and, on status 200, write the chunks in order
      to the file named after the URL; on any other status write nothing. A URL
      answered 200 must name a file: for a last segment "", "." or "..", the
      destination is the folder or its parent, which cannot be opened as a file. */
  method DownloadFile(url: string, http: HttpClient, folder: OutputFolder)
    requires NamesAFile(url) || Answer(http.server, url).status != StatusOk
    modifies http, folder
    ensures http.requested == old(http.requested) + [url]
    ensures folder.files == AfterDownload(old(folder.files), url, Answer(http.server, url))
  {
    var filename := Filename(url);
    var resp := http.Get(url);
    if resp.status == StatusOk {
      folder.WriteChunks(filename, resp.chunks);
    }
  }

  /** The script's main loop: download the URLs one after the other, in order. */
  method DownloadInOrder(urls: seq<string>, http: HttpClient, folder: OutputFolder)
    requires forall k :: 0 <= k < |urls| ==> NamesAFile(urls[k]) || Answer(http.server, urls[k]).status != StatusOk
    modifies http, folder
    ensures http.requested == old(http.requested) + urls
    ensures folder.files == AfterDownloads(old(folder.files), urls, http.server)
  {
    ghost var log, start, server := http.requested, folder.files, http.server;
    for i := 0 to |urls|
      invariant |http.requested| == |log| + i
      invariant http.requested[..|log|] == log
      invariant forall k :: 0 <= k < i ==> http.requested[|log| + k] == urls[k]
      invariant folder.files == AfterDownloads(start, urls[..i], server)
    {
      AfterDownloadsPrefix(start, urls, i, server);
      DownloadFile(urls[i], http, folder);
    }
    assert urls[..|urls|] == urls;
    assert http.requested == log + urls;
  }

  /** `main`: fail before any request unless the table has a name column, then
      download every row's station file in row order. */
  method Run(stations: Table<string>, baseUrl: string, http: HttpClient, folder: OutputFolder)
    returns (r: Outcome<Error>)
    requires stations.WellFormed()
    modifies http, folder
    ensures NameColumn !in stations.columns ==>
      r == Fail(MissingNameColumn) &&
      http.requested == old(http.requested) && folder.files == old(folder.files)
    ensures NameColumn in stations.columns ==>
      r == Pass &&
      http.requested == old(http.requested) + StationUrls(baseUrl, stations.rows) &&
      folder.files == AfterDownloads(old(folder.files), StationUrls(baseUrl, stations.rows), http.server)
  {
    if NameColumn !in stations.columns {
      return Fail(MissingNameColumn);
    }
    StationUrlsNameFiles(baseUrl, stations.rows);
    DownloadInOrder(StationUrls(baseUrl, stations.rows), http, folder);
    r := Pass;
  }
}
