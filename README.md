# Copernicus Marine batch downloaders, modelled in Dafny

The repository has two command-line scripts that fetch oceanographic data one table row at a time:

- **Batch subset requester** (`data/copernicus_marine_batch_downloader.py`). It reads a table of locations and picks the mode once per run from the header. The mode is *points* when `lon` and `lat` are both present. Otherwise it is *areas* when `lon_min`, `lon_max`, `lat_min` and `lat_max` are all present. Otherwise the run stops with an error. The script then calls the external subset operation once per row, in row order. Each call carries the row's bounding box and the run-wide parameters from the command line. A point gives a degenerate box: min equals max.
- **Station file downloader** (`data/copernicus_in-situ.py`). It requires a `name` column. For every row it strips the station name and builds `base_url + name + ".nc"`. It names the file after the URL's last `/`-separated segment and sends one streaming GET. On status 200 it writes the body chunks, in order, to that file in the output folder, replacing any earlier content. On any other status it writes nothing and goes on with the next row.

How the model is laid out:

- `outcomes.dfy`: `Result` and `Outcome` (success, or an error value).
- `tables.dfy`: a read CSV table. It is the set of header columns plus the rows in file order, each row a map from column to cell. `WellFormed` says every row has a cell for exactly the header's columns.
- `text.dfy`: `str.strip()` (`Strip`), `str.split(sep)` (`Split`) and its inverse `Join`.
- `subset_planner.dfy`: the requester.
  - The pure planner: `SelectMode`, `MakeRequest`, `PlannedRequests`, `Plan`.
  - The subset service: a `SubsetClient` object whose `Subset` method appends the request record to a call log.
  - The script's loop: `Run`, an imperative method proved to leave the log extended by exactly the planned requests.
- `station_downloader.dfy`: the downloader.
  - The server is a map from URL to a response: a status plus the chunks of the streamed body. Any other URL is answered 404.
  - `HttpClient` logs the URLs it is asked for.
  - `OutputFolder` holds the folder as a map from file name to bytes. Its `WriteChunks` is the `open(..., "wb")` plus the chunk-write loop.
  - `DownloadFile` is `download_file`.
  - `DownloadInOrder` and `Run` are `main`'s loop and `main`.
  - The pure side: `Filename`, `StationUrl`/`StationUrls`, and the specification functions `AfterDownload`/`AfterDownloads`. These say what the folder holds after one download and after a sequence of downloads.

The downloader strips the station name before building the URL (`copernicus_in-situ.py:72`), so the URL is `base_url + strip(name) + ".nc"`.

How the code differs from its own documentation:

- The help text of `--stations_file` mentions a `station_name` column, but the code checks for and reads `name` (`copernicus_in-situ.py:50`, `66`, `72`). The model follows the code.
- The module docstring lists `--dataset_version` among the optional options (`copernicus_marine_batch_downloader.py:19`), and it is missing from the required arguments at `:13-16` and `:36-37`. Yet `:54` declares it `required=True`. The model follows the code: it is a plain given value in `RunArgs`.

## Model

| member | source | states |
|---|---|---|
| `SubsetPlanner.SelectMode` | data/copernicus_marine_batch_downloader.py:75-82 | points if and only if `lon` and `lat` are both present (even when all area columns are present too); areas if and only if the point columns are incomplete and all four area columns are present; the error if and only if neither set is complete; a chosen mode's columns are always in the table |
| `SubsetPlanner.RowBox` | data/copernicus_marine_batch_downloader.py:84-94 | a point row gives a degenerate box, with both longitude bounds equal to its `lon` and both latitude bounds equal to its `lat`; an area row gives its `lon_min`, `lon_max`, `lat_min`, `lat_max` unchanged |
| `SubsetPlanner.MakeRequest` | data/copernicus_marine_batch_downloader.py:96-111 | the request's four bounds are exactly the given box and every other keyword argument is exactly the run's |
| `SubsetPlanner.RequestFromParts` | data/copernicus_marine_batch_downloader.py:96-111 | a request is fully determined by its box and its run parameters (the inverse of splitting it into the two) |
| `SubsetPlanner.PlannedRequests` | data/copernicus_marine_batch_downloader.py:84-111 | one request per row, in row order: the k-th request is made from the k-th row's box in the run's mode |
| `SubsetPlanner.Plan` | data/copernicus_marine_batch_downloader.py:75-111 | the run fails exactly when neither column set is complete, always with the missing-columns error; otherwise it plans as many requests as there are rows |
| `SubsetPlanner.PointRequestsAreDegenerate` | data/copernicus_marine_batch_downloader.py:85-87 | with `lon` and `lat` present, every request has minimum and maximum longitude equal to its row's `lon` and minimum and maximum latitude equal to its row's `lat` |
| `SubsetPlanner.AreaRequestsPassBoundsThrough` | data/copernicus_marine_batch_downloader.py:89-93 | in areas mode every request's four bounds are its row's `lon_min`, `lon_max`, `lat_min`, `lat_max` unchanged |
| `SubsetPlanner.RunParametersAreShared` | data/copernicus_marine_batch_downloader.py:96-111 | every request of a run carries the run's dataset id and version, variables, time range, depth range, selection method, progress flag and credentials file, so all requests agree on them |
| `SubsetPlanner.ModeFixedForRun` | data/copernicus_marine_batch_downloader.py:75-85 | every row's box is read in the single mode selected from the header before the loop |
| `SubsetPlanner.SubsetClient.Subset` | data/copernicus_marine_batch_downloader.py:96-111 | one subset call appends its request record to the call log and changes nothing else |
| `SubsetPlanner.Run` | data/copernicus_marine_batch_downloader.py:75-111 | on a header with neither column set the run fails with that error and makes no subset call; otherwise it succeeds and the call log grows by exactly the planned requests, one per row in row order |
| `Text.Strip` | data/copernicus_in-situ.py:72 | the result is no longer than the input, is empty exactly when the input is all whitespace, and neither starts nor ends with whitespace |
| `Text.StripRemovesOnlySpace` | data/copernicus_in-situ.py:72 | the stripped name is a contiguous middle of the name between a whitespace-only prefix and a whitespace-only suffix |
| `Text.StripIdempotent` | data/copernicus_in-situ.py:72 | stripping an already stripped name changes nothing |
| `Text.Split` | data/copernicus_in-situ.py:27 | splitting gives at least one part, no part contains the separator, and joining the parts with the separator gives back the string |
| `Text.SplitJoin` | data/copernicus_in-situ.py:27 | splitting the join of separator-free parts gives back exactly those parts |
| `StationDownloader.Filename` | data/copernicus_in-situ.py:27 | the file name contains no `/` and is no longer than the URL (`FilenameIsLastSegment` states which part of the URL it is) |
| `StationDownloader.FilenameIsLastSegment` | data/copernicus_in-situ.py:27 | the file name is a suffix of the URL that contains no `/` and, unless it is the whole URL, follows a `/` |
| `StationDownloader.FilenameAfterSlash` | data/copernicus_in-situ.py:27 | whatever follows the last `/` of a URL is its file name |
| `StationDownloader.FilenameNamesAFile` | data/copernicus_in-situ.py:27-28 | the file name is `""`, `.` or `..` (the names under which `output_folder / filename` is the folder itself or its parent) exactly when the URL is empty, ends with `/`, or ends with a last segment `.` or `..` |
| `StationDownloader.StationUrl` | data/copernicus_in-situ.py:72-73 | the URL is the base URL, followed by the stripped name, followed by `.nc`, with no other characters |
| `StationDownloader.StationFilename` | data/copernicus_in-situ.py:73 | when the base URL ends with `/` and the stripped name has no `/`, a station's file is named its stripped name followed by `.nc` |
| `StationDownloader.StationUrls` | data/copernicus_in-situ.py:71-73 | one URL per row |
| `StationDownloader.StationUrlAt` | data/copernicus_in-situ.py:71-73 | the k-th URL is the base URL, the k-th row's stripped name and `.nc`: URLs follow row order |
| `StationDownloader.StationUrlNamesFile` | data/copernicus_in-situ.py:73 | a station URL ends with `.nc`, so it names a file and its file name is neither empty nor `.` nor `..` |
| `StationDownloader.StationUrlsNameFiles` | data/copernicus_in-situ.py:71-74 | every URL the loop builds ends with `.nc`, so it names a file: its file name is neither empty nor `.` nor `..` |
| `StationDownloader.Concat` | data/copernicus_in-situ.py:33-34 | the written body holds as many bytes as the chunks hold together (`ConcatAppend` states that the chunks follow one another in order) |
| `StationDownloader.ConcatAppend` | data/copernicus_in-situ.py:33-34 | writing one run of chunks after another leaves their concatenations one after the other |
| `StationDownloader.AfterDownload` | data/copernicus_in-situ.py:31-36 | after a 200 the file named after the URL holds exactly the concatenated body; after any other status the folder is unchanged |
| `StationDownloader.DownloadTouchesOnlyItsFile` | data/copernicus_in-situ.py:31-36 | after a 200 the file named after the URL holds exactly the concatenated body, whatever was there before; after any other status the folder is unchanged; no other file changes and no file other than that one is added |
| `StationDownloader.AfterDownloads` | data/copernicus_in-situ.py:71-74 | the folder after the downloads in order, each applied to the folder the earlier ones left; a download never removes a file |
| `StationDownloader.UntouchedUnlessDownloaded` | data/copernicus_in-situ.py:71-74 | over a whole run, a file that no successful download is named after keeps its content, and one that was absent stays absent |
| `StationDownloader.LastDownloadWins` | data/copernicus_in-situ.py:71-74 | over a whole run, a file holds the body of a successful download named after it when every later successful download named after the same file brings the same body; in particular it holds the body of the last successful download named after it |
| `StationDownloader.EveryStationSaved` | data/copernicus_in-situ.py:71-74 | with a base URL ending in `/`, stripped names without `/`, and status 200 for each URL, every station ends up in the folder as its stripped name plus `.nc`, holding exactly its response body; a station listed more than once has its one URL and so its one body |
| `StationDownloader.HttpClient.Get` | data/copernicus_in-situ.py:30 | a GET logs its URL and returns the server's answer for it |
| `StationDownloader.OutputFolder.WriteChunks` | data/copernicus_in-situ.py:32-34 | opening the file for writing and writing the chunks in order leaves it holding exactly their concatenation, replacing earlier content, with every other file as before |
| `StationDownloader.DownloadFile` | data/copernicus_in-situ.py:17-36 | for a URL that names a file or is not answered 200, one request for the URL is logged, and the folder becomes what `AfterDownload` gives for the server's answer: written on 200, unchanged otherwise |
| `StationDownloader.DownloadInOrder` | data/copernicus_in-situ.py:71-74 | given URLs that each name a file or are not answered 200, they are requested one after the other in order, and the folder ends as `AfterDownloads` of its start, the URLs and the server |
| `StationDownloader.Run` | data/copernicus_in-situ.py:65-74 | without a `name` column the run fails with that error before any request and with the folder untouched; otherwise it succeeds, requests exactly one URL per row in row order, and leaves the folder as those downloads in sequence make it |

## Left out

- Argument parsing is left out: `argparse`, its defaults (including the two datetimes, the depths 0.51 and 30.0, `strict-inside` and the base URL) and `Path.home()`. The parsed values are inputs of `Run`.
- The creation of the folder (`mkdir`) is left out, and so is the rendering of the output path as `output_folder / filename`. The folder is a map keyed by file name inside that folder.
- `pd.read_csv` and `iterrows` are left out: the table is a column set plus rows of cells. Station-name cells that are not strings are left out too; a NaN, say, makes `.strip()` raise after the earlier rows have been downloaded.
- `Text.Strip`: removes only the six ASCII whitespace characters: space, tab, line feed, carriage return, vertical tab and form feed. Python's `str.strip()` also removes the separators `\x1c`-`\x1f` and the non-ASCII whitespace characters.
- Floating point is left out: coordinates and depths are `real` values that are only passed through and compared for equality.
- `requests.get` is reduced to a map from URL to status and chunks:
  - the 30-second timeout, connection errors and the exceptions they raise are left out;
  - the 8192-byte chunk size is left out: chunk boundaries are whatever the server's answer lists;
  - a URL asked for twice gets the same answer both times.
- The subset operation itself is left out (its download and its files), and so are the failures it raises, which would abort the run part-way. The model records only the call and its arguments.
- All `print` diagnostics are left out. That includes the per-row progress lines and the message for a non-200 status.
- `StationDownloader.DownloadFile`: requires that a URL answered 200 names a file. Its last segment must not be empty, `.` or `..`. For such a segment the destination `output_folder / filename` is the folder itself (for `""` and `.`) or its parent folder (for `..`). On a 200 answer, `open(..., "wb")` on that directory raises after the request has been made. That failure path is not modelled. On any other answer the source only prints its message, and the requires admits that case. `main` never reaches this path, because every URL it builds ends with `.nc` (`StationUrlsNameFiles`).
- `StationDownloader.Run`: computes the row URLs with `StationUrls` first and then downloads them in order with `DownloadInOrder`. The script builds each URL just before its download. Building a URL has no effect, so the requests and writes are the same and come in the same order.
