/** The package export: a manifest block per screenshot and one image download
    per screenshot, numbered from 1 in export order. */
module Packaging {
  import opened Records
  import opened ExportNames

  /** One entry of the package manifest, as its text block describes it. */
  datatype ManifestEntry = ManifestEntry(
    number: nat,
    fileName: string,
    title: string,
    url: string,
    captureLabel: string,
    timestamp: nat,
    description: string)

  /** One image download. `compress` says whether the image is re-encoded as a
      JPEG first. */
  datatype Download = Download(fileName: string, imageData: string, compress: bool)

  datatype PackageExport =
    | NothingToExport     // 'No screenshots to export'
    | ExportFailed        // the session name is undefined
    | Package(manifestName: string, imageFormat: string, entries: seq<ManifestEntry>, downloads: seq<Download>)

  /** The manifest's "Image Format" line. */
  function ImageFormat(compress: bool): (f: string)
    ensures compress ==> f == "JPEG (compressed)"
    ensures !compress ==> f == "PNG (original)"
  {
    if compress then "JPEG (compressed)" else "PNG (original)"
  }

  /** The manifest's text for a screenshot without a transcript. */
  const NoDescription: string := "[No description provided - analyze the visual elements in the screenshot]"

  /** The manifest's stand-ins for a missing title and URL, and its capture labels. */
  const Untitled: string := "Untitled"
  const NoUrl: string := "N/A"
  const RegionLabel: string := "Region Selection"
  const FullPageLabel: string := "Full Page"

  /** `value || fallback` for a string. */
  function OrElse(value: string, fallback: string): (r: string)
    ensures value != "" ==> r == value
    ensures value == "" ==> r == fallback
  {
    if value != "" then value else fallback
  }

  /** The manifest's "Capture Type" line: 'Region Selection' exactly for a region capture. */
  function CaptureLabel(t: CaptureType): (r: string)
    ensures t == Region ==> r == RegionLabel
    ensures t == Full ==> r == FullPageLabel
    ensures r == RegionLabel <==> t == Region
  {
    assert RegionLabel != FullPageLabel by { assert |RegionLabel| != |FullPageLabel|; }
    if t == Region then RegionLabel else FullPageLabel
  }

  /** The manifest block for the screenshot at `index`: every text field is non-empty. */
  function EntryFor(s: Screenshot, index: nat, ext: string): (e: ManifestEntry)
    ensures e.number == index + 1 && e.fileName == PackageFileName(index + 1, ext)
    ensures e.timestamp == s.timestamp
    ensures e.title != "" && (s.title != "" ==> e.title == s.title) && (s.title == "" ==> e.title == Untitled)
    ensures e.url != "" && (s.url != "" ==> e.url == s.url) && (s.url == "" ==> e.url == NoUrl)
    ensures e.captureLabel != "" && (e.captureLabel == RegionLabel <==> s.captureType == Region)
    ensures s.captureType == Full ==> e.captureLabel == FullPageLabel
    ensures e.description != ""
    ensures Truthy(s.transcript) ==> e.description == s.transcript.value
    ensures !Truthy(s.transcript) ==> e.description == NoDescription
  {
    ManifestEntry(
      index + 1,
      PackageFileName(index + 1, ext),
      OrElse(s.title, Untitled),
      OrElse(s.url, NoUrl),
      CaptureLabel(s.captureType),
      s.timestamp,
      OrElse(if s.transcript.Some? then s.transcript.value else "", NoDescription))
  }

  /** `exportAsPackage` after the compression question: numbers the filtered
      screenshots from 1 in the manifest and downloads each under that name. */
  method BuildPackage(data: seq<Screenshot>, sessionName: Option<string>, compress: bool, now: nat)
    returns (p: PackageExport)
    ensures p.NothingToExport? <==> |data| == 0
    ensures p.ExportFailed? <==> |data| > 0 && sessionName.None?
    ensures p.Package? ==>
              && p.manifestName == ExportFileName(Manifest, sessionName, now).value
              && p.imageFormat == ImageFormat(compress)
              && |p.entries| == |data| && |p.downloads| == |data|
              && (forall i :: 0 <= i < |data| ==>
                   && p.entries[i] == EntryFor(data[i], i, Extension(compress))
                   && p.entries[i].number == i + 1
                   && p.entries[i].fileName == PackageFileName(i + 1, Extension(compress))
                   && p.entries[i].timestamp == data[i].timestamp
                   && p.downloads[i].fileName == p.entries[i].fileName
                   && p.downloads[i].imageData == data[i].imageData
                   && p.downloads[i].compress == compress)
  {
    if |data| == 0 {
      return NothingToExport;
    }
    var manifestName := ExportFileName(Manifest, sessionName, now);
    var entries := ManifestEntries(data, Extension(compress));
    if manifestName.None? {
      return ExportFailed;
    }
    var downloads := PackageDownloads(data, compress);
    p := Package(manifestName.value, ImageFormat(compress), entries, downloads);
  }

  /** The manifest's `forEach`: one block per screenshot, numbered from 1. */
  method ManifestEntries(data: seq<Screenshot>, ext: string) returns (entries: seq<ManifestEntry>)
    ensures |entries| == |data|
    ensures forall k :: 0 <= k < |data| ==> entries[k] == EntryFor(data[k], k, ext)
  {
    entries := [];
    var i := 0;
    while i < |data|
      invariant 0 <= i <= |data|
      invariant |entries| == i
      invariant forall k :: 0 <= k < i ==> entries[k] == EntryFor(data[k], k, ext)
    {
      var e := EntryFor(data[i], i, ext);
      entries := entries + [e];
      i := i + 1;
    }
  }

  /** The downloads' `forEach`: image i is saved under the name `downloadScreenshot` derives. */
  method PackageDownloads(data: seq<Screenshot>, compress: bool) returns (downloads: seq<Download>)
    ensures |downloads| == |data|
    ensures forall k :: 0 <= k < |data| ==>
              downloads[k] == Download(PackageFileName(k + 1, Extension(compress)), data[k].imageData, compress)
  {
    var ext := Extension(compress);
    downloads := [];
    var i := 0;
    while i < |data|
      invariant 0 <= i <= |data|
      invariant |downloads| == i
      invariant forall k :: 0 <= k < i ==>
                  downloads[k] == Download(PackageFileName(k + 1, ext), data[k].imageData, compress)
    {
      var name := PackageFileName(i + 1, ext);
      DownloadNameMatchesManifest(i + 1, compress);
      assert DownloadName(name, compress) == name;
      downloads := downloads + [Download(DownloadName(name, compress), data[i].imageData, compress)];
      i := i + 1;
    }
  }
}
