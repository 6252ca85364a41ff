/** The terrain-tile cache: a directory of .sdf files, filled on demand from
    the tile server. The directory is a map from file name to contents and
    the HTTP GET is a function from URL to its outcome. */
module TileCache {
  import opened Text
  import opened Tiles

  /** What a GET of a tile URL gives: a network error, or a response. */
  datatype Fetch = NetworkError(reason: string) | Response(status: int, content: string)

  /** The file a run needs for a tile: the 1-arc-second one in high-definition
      mode, the 3-arc-second one otherwise. */
  function CachedName(t: Tile, hd: bool): string {
    if hd then t.sdfHd else t.sdf
  }

  function TileUrl(baseUrl: string, t: Tile, hd: bool): string {
    if hd then baseUrl + "/1-arc/" + t.sdfHd else baseUrl + "/3-arc/" + t.sdf
  }

  /** The error a fetch raises: any network error, and any status but 200. */
  function FetchError(t: Tile, url: string, f: Fetch): (e: Option<string>)
    ensures e.None? <==> f.Response? && f.status == 200
    ensures e.Some? ==> StartsWith(e.value, "Failed to download terrain tile: " + t.hgt + " from " + url)
  {
    var prefix := "Failed to download terrain tile: " + t.hgt + " from " + url;
    match f
    case NetworkError(reason) =>
      assert (prefix + ": " + reason)[..|prefix|] == prefix;
      Some(prefix + ": " + reason)
    case Response(status, _) => if status != 200 then Some(prefix) else None
  }

  /** The directory after a run over some tiles, and the error that ended it
      early, if any; files written before the error stay. */
  datatype Outcome = Outcome(files: map<string, string>, error: Option<string>)

  /** The tiles in order: a tile whose file is present is skipped; otherwise
      its URL is fetched and the body stored under its name, or the run stops. */
  function Fill(files: map<string, string>, tiles: seq<Tile>, hd: bool, baseUrl: string,
                fetch: string -> Fetch): Outcome
    decreases |tiles|
  {
    if tiles == [] then Outcome(files, None)
    else
      var t := tiles[0];
      var name := CachedName(t, hd);
      if name in files then Fill(files, tiles[1..], hd, baseUrl, fetch)
      else
        var url := TileUrl(baseUrl, t, hd);
        match FetchError(t, url, fetch(url))
        case Some(e) => Outcome(files, Some(e))
        case None => Fill(files[name := fetch(url).content], tiles[1..], hd, baseUrl, fetch)
  }

  /** Files already in the directory are never replaced or removed. */
  lemma {:induction false} FillKeepsFiles(files: map<string, string>, tiles: seq<Tile>, hd: bool,
                                          baseUrl: string, fetch: string -> Fetch)
    ensures var out := Fill(files, tiles, hd, baseUrl, fetch);
            forall n :: n in files ==> n in out.files && out.files[n] == files[n]
    decreases |tiles|
  {
    if tiles != [] {
      var t := tiles[0];
      var name := CachedName(t, hd);
      if name in files {
        FillKeepsFiles(files, tiles[1..], hd, baseUrl, fetch);
      } else {
        var url := TileUrl(baseUrl, t, hd);
        if FetchError(t, url, fetch(url)).None? {
          FillKeepsFiles(files[name := fetch(url).content], tiles[1..], hd, baseUrl, fetch);
        }
      }
    }
  }

  /** Every file a run adds is the one some listed tile needs. */
  lemma {:induction false} FillAddsOnlyTileFiles(files: map<string, string>, tiles: seq<Tile>, hd: bool,
                                                 baseUrl: string, fetch: string -> Fetch)
    ensures var out := Fill(files, tiles, hd, baseUrl, fetch);
            forall n :: n in out.files ==> n in files || exists k :: 0 <= k < |tiles| && n == CachedName(tiles[k], hd)
    decreases |tiles|
  {
    if tiles != [] {
      var t := tiles[0];
      var name := CachedName(t, hd);
      var out := Fill(files, tiles, hd, baseUrl, fetch);
      if name in files {
        FillAddsOnlyTileFiles(files, tiles[1..], hd, baseUrl, fetch);
        assert out == Fill(files, tiles[1..], hd, baseUrl, fetch);
        forall n | n in out.files
          ensures n in files || exists k :: 0 <= k < |tiles| && n == CachedName(tiles[k], hd)
        {
          if n !in files {
            var k :| 0 <= k < |tiles[1..]| && n == CachedName(tiles[1..][k], hd);
            assert n == CachedName(tiles[k + 1], hd);
          }
        }
      } else {
        var url := TileUrl(baseUrl, t, hd);
        if FetchError(t, url, fetch(url)).None? {
          var next := files[name := fetch(url).content];
          FillAddsOnlyTileFiles(next, tiles[1..], hd, baseUrl, fetch);
          assert out == Fill(next, tiles[1..], hd, baseUrl, fetch);
          forall n | n in out.files
            ensures n in files || exists k :: 0 <= k < |tiles| && n == CachedName(tiles[k], hd)
          {
            if n !in files && n != name {
              var k :| 0 <= k < |tiles[1..]| && n == CachedName(tiles[1..][k], hd);
              assert n == CachedName(tiles[k + 1], hd);
            }
          }
        }
      }
    }
  }

  /** A run that ends without error leaves every listed tile's file in the
      directory. */
  lemma {:induction false} FillCoversTiles(files: map<string, string>, tiles: seq<Tile>, hd: bool,
                                           baseUrl: string, fetch: string -> Fetch)
    ensures var out := Fill(files, tiles, hd, baseUrl, fetch);
            out.error.None? ==> forall k :: 0 <= k < |tiles| ==> CachedName(tiles[k], hd) in out.files
    decreases |tiles|
  {
    if tiles != [] {
      var t := tiles[0];
      var name := CachedName(t, hd);
      var out := Fill(files, tiles, hd, baseUrl, fetch);
      if name in files {
        FillCoversTiles(files, tiles[1..], hd, baseUrl, fetch);
        FillKeepsFiles(files, tiles[1..], hd, baseUrl, fetch);
        if out.error.None? {
          forall k | 0 <= k < |tiles| ensures CachedName(tiles[k], hd) in out.files {
            if k > 0 { assert tiles[k] == tiles[1..][k - 1]; }
          }
        }
      } else {
        var url := TileUrl(baseUrl, t, hd);
        if FetchError(t, url, fetch(url)).None? {
          var next := files[name := fetch(url).content];
          FillCoversTiles(next, tiles[1..], hd, baseUrl, fetch);
          FillKeepsFiles(next, tiles[1..], hd, baseUrl, fetch);
          if out.error.None? {
            forall k | 0 <= k < |tiles| ensures CachedName(tiles[k], hd) in out.files {
              if k > 0 { assert tiles[k] == tiles[1..][k - 1]; }
            }
          }
        }
      }
    }
  }

  /** A run that fails names a listed tile whose file is still missing and
      whose fetch went wrong. */
  lemma {:induction false} FillFailureNamesTile(files: map<string, string>, tiles: seq<Tile>, hd: bool,
                                                baseUrl: string, fetch: string -> Fetch)
    ensures var out := Fill(files, tiles, hd, baseUrl, fetch);
            out.error.Some? ==>
              exists k :: 0 <= k < |tiles| && CachedName(tiles[k], hd) !in out.files
                && out.error == FetchError(tiles[k], TileUrl(baseUrl, tiles[k], hd),
                                           fetch(TileUrl(baseUrl, tiles[k], hd)))
    decreases |tiles|
  {
    if tiles != [] {
      var t := tiles[0];
      var name := CachedName(t, hd);
      var out := Fill(files, tiles, hd, baseUrl, fetch);
      var url := TileUrl(baseUrl, t, hd);
      if name in files {
        FillFailureNamesTile(files, tiles[1..], hd, baseUrl, fetch);
        if out.error.Some? {
          var k :| 0 <= k < |tiles[1..]| && CachedName(tiles[1..][k], hd) !in out.files
            && out.error == FetchError(tiles[1..][k], TileUrl(baseUrl, tiles[1..][k], hd),
                                       fetch(TileUrl(baseUrl, tiles[1..][k], hd)));
          assert tiles[1..][k] == tiles[k + 1];
        }
      } else if FetchError(t, url, fetch(url)).Some? {
        assert out == Outcome(files, FetchError(t, url, fetch(url)));
      } else {
        var next := files[name := fetch(url).content];
        FillFailureNamesTile(next, tiles[1..], hd, baseUrl, fetch);
        if out.error.Some? {
          var k :| 0 <= k < |tiles[1..]| && CachedName(tiles[1..][k], hd) !in out.files
            && out.error == FetchError(tiles[1..][k], TileUrl(baseUrl, tiles[1..][k], hd),
                                       fetch(TileUrl(baseUrl, tiles[1..][k], hd)));
          assert tiles[1..][k] == tiles[k + 1];
        }
      }
    }
  }

  /** When every listed tile's file is present, a run fetches nothing, changes
      nothing and succeeds, whatever the server would answer; in particular a
      second run over the same tiles after a successful one. */
  lemma {:induction false} FillAllCached(files: map<string, string>, tiles: seq<Tile>, hd: bool,
                                         baseUrl: string, fetch: string -> Fetch)
    requires forall k :: 0 <= k < |tiles| ==> CachedName(tiles[k], hd) in files
    ensures Fill(files, tiles, hd, baseUrl, fetch) == Outcome(files, None)
    decreases |tiles|
  {
    if tiles != [] {
      assert CachedName(tiles[0], hd) in files;
      assert forall k :: 0 <= k < |tiles[1..]| ==> tiles[1..][k] == tiles[k + 1];
      FillAllCached(files, tiles[1..], hd, baseUrl, fetch);
    }
  }

  lemma FillTwice(files: map<string, string>, tiles: seq<Tile>, hd: bool, baseUrl: string,
                  fetch: string -> Fetch, fetchAgain: string -> Fetch)
    requires Fill(files, tiles, hd, baseUrl, fetch).error.None?
    ensures var out := Fill(files, tiles, hd, baseUrl, fetch);
            Fill(out.files, tiles, hd, baseUrl, fetchAgain) == out
  {
    FillCoversTiles(files, tiles, hd, baseUrl, fetch);
    FillAllCached(Fill(files, tiles, hd, baseUrl, fetch).files, tiles, hd, baseUrl, fetchAgain);
  }

  /** The cache directory of one service instance. */
  class Cache {
    const baseUrl: string
    var files: map<string, string>

    constructor (baseUrl: string, files: map<string, string>)
      ensures this.baseUrl == baseUrl && this.files == files
    {
      this.baseUrl := baseUrl;
      this.files := files;
    }

    /** `_download_terrain_tile`: make sure every listed tile's file is
        present, stopping at the first fetch that fails. */
    method Download(tiles: seq<Tile>, hd: bool, fetch: string -> Fetch) returns (error: Option<string>)
      modifies this
      ensures Outcome(files, error) == Fill(old(files), tiles, hd, baseUrl, fetch)
    {
      var i := 0;
      while i < |tiles|
        invariant 0 <= i <= |tiles|
        invariant Fill(old(files), tiles, hd, baseUrl, fetch) == Fill(files, tiles[i..], hd, baseUrl, fetch)
      {
        var t := tiles[i];
        assert tiles[i..][1..] == tiles[i + 1..];
        var name := CachedName(t, hd);
        if name !in files {
          var url := TileUrl(baseUrl, t, hd);
          var response := fetch(url);
          var failed := FetchError(t, url, response);
          if failed.Some? {
            return failed;
          }
          files := files[name := response.content];
        }
        i := i + 1;
      }
      return None;
    }
  }
}
