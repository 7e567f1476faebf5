/**
 Choice of the database file among the assets of the latest release (main.go): the
 download URL of the first asset whose file name has the extension ".mmdb". Later
 matches are ignored; no match, or a first match without a URL, is an error.
 */
module Assets {
  import opened Results

  /** One release asset, as listed in the release metadata. */
  datatype Asset = Asset(name: string, downloadUrl: string)

  const MmdbExt: string := ".mmdb"

  const NoMmdbMessage: string := "no mmdb file found in release"

  /** The scan of Go's `filepath.Ext`, with '/' as the only separator, from position `i` down. */
  function ExtFrom(path: string, i: int): string
    requires -1 <= i < |path|
    decreases i + 1
  {
    if i < 0 || path[i] == '/' then ""
    else if path[i] == '.' then path[i..]
    else ExtFrom(path, i - 1)
  }

  /**
   The extension of a file name: the suffix from the last '.' of its last '/'-separated
   element, or "" when that element has no '.'.
   */
  function Ext(path: string): string
  {
    ExtFrom(path, |path| - 1)
  }

  /** The last '.' of the final path element begins the extension; without one, it is empty. */
  ghost predicate IsExtOf(path: string, r: string)
  {
    && (r != "" ==> |r| <= |path| && r == path[|path| - |r|..] && r[0] == '.' && '.' !in r[1..] && '/' !in r)
    && (r == "" ==> forall k :: 0 <= k < |path| && '/' !in path[k..] ==> path[k] != '.')
  }

  lemma {:induction false} ExtFromIsExt(path: string, i: int)
    requires -1 <= i < |path|
    requires forall k :: i < k < |path| ==> path[k] != '.' && path[k] != '/'
    ensures IsExtOf(path, ExtFrom(path, i))
    decreases i + 1
  {
    if i < 0 || path[i] == '/' {
      assert forall k :: 0 <= k <= i ==> path[i] in path[k..];
    } else if path[i] != '.' {
      ExtFromIsExt(path, i - 1);
    }
  }

  /** `Ext` returns exactly the extension of the final path element. */
  lemma ExtIsExt(path: string)
    ensures IsExtOf(path, Ext(path))
  {
    ExtFromIsExt(path, |path| - 1);
  }

  predicate IsMmdb(name: string)
  {
    Ext(name) == MmdbExt
  }

  /** A name has the extension ".mmdb" exactly when it ends with ".mmdb". */
  lemma MmdbIffSuffix(name: string)
    ensures IsMmdb(name) <==> |name| >= 5 && name[|name| - 5..] == MmdbExt
  {
    ExtIsExt(name);
    if |name| >= 5 && name[|name| - 5..] == MmdbExt {
      assert name[|name| - 5] == '.';
    }
  }

  /** The position of the first asset whose name has the extension ".mmdb". */
  function FirstMmdb(assets: seq<Asset>): (r: Option<nat>)
    ensures r.Some? ==> r.value < |assets| && IsMmdb(assets[r.value].name)
    ensures r.Some? ==> forall j :: 0 <= j < r.value ==> !IsMmdb(assets[j].name)
    ensures r.None? ==> forall j :: 0 <= j < |assets| ==> !IsMmdb(assets[j].name)
  {
    if |assets| == 0 then None
    else if IsMmdb(assets[0].name) then Some(0)
    else
      var rest := assets[1..];
      assert forall j :: 0 < j < |assets| ==> assets[j] == rest[j - 1];
      match FirstMmdb(rest)
      case None => None
      case Some(k) => Some(k + 1)
  }

  /**
   The asset-selection loop: the URL of the first ".mmdb" asset, failing when there is
   none or when that asset's URL is empty.
   */
  method SelectDownloadUrl(assets: seq<Asset>) returns (r: Result<string>)
    ensures r.Ok? <==> FirstMmdb(assets).Some? && assets[FirstMmdb(assets).value].downloadUrl != ""
    ensures r.Ok? ==> r.value == assets[FirstMmdb(assets).value].downloadUrl
    ensures r.Err? ==> r.message == NoMmdbMessage
  {
    var downloadUrl := "";
    var i := 0;
    while i < |assets|
      invariant 0 <= i <= |assets|
      invariant downloadUrl == ""
      invariant forall j :: 0 <= j < i ==> !IsMmdb(assets[j].name)
    {
      if Ext(assets[i].name) == MmdbExt {
        downloadUrl := assets[i].downloadUrl;
        break;
      }
      i := i + 1;
    }
    if downloadUrl == "" {
      return Err(NoMmdbMessage);
    }
    return Ok(downloadUrl);
  }

  /** Assets after the first ".mmdb" asset never change the choice. */
  lemma {:induction false} FirstMatchWins(assets: seq<Asset>, more: seq<Asset>)
    requires FirstMmdb(assets).Some?
    ensures FirstMmdb(assets + more) == FirstMmdb(assets)
    decreases |assets|
  {
    assert (assets + more)[0] == assets[0];
    if !IsMmdb(assets[0].name) {
      assert (assets + more)[1..] == assets[1..] + more;
      FirstMatchWins(assets[1..], more);
    }
  }

  /** The first ".mmdb" asset is found wherever it sits among other assets. */
  lemma FirstMatchAfterOthers(others: seq<Asset>, a: Asset, more: seq<Asset>)
    requires forall j :: 0 <= j < |others| ==> !IsMmdb(others[j].name)
    requires IsMmdb(a.name)
    ensures FirstMmdb(others + [a] + more) == Some(|others|)
  {
    var all := others + [a] + more;
    var r := FirstMmdb(all);
    assert all[|others|] == a;
    assert forall j :: 0 <= j < |others| ==> all[j] == others[j];
  }
}
