/** web/src/components/DownloadsView.js: the downloads screen. It shows the
    stored history through a filter tab, picks an icon by MIME type, and
    deletes through the download engine. */
module DownloadsView {
  import opened Text
  import opened Lists
  import opened BrowserTypes
  import opened Downloads

  /** `getIcon(mimeType)`: the first of image, pdf and video that the type
      mentions decides. */
  function Icon(mimeType: string): string {
    if Contains(mimeType, "image") then "image"
    else if Contains(mimeType, "pdf") then "file-text"
    else if Contains(mimeType, "video") then "video"
    else "file"
  }

  /** The icon is one of four, and each one is chosen exactly when its word
      is the first of the three that the type mentions. */
  lemma IconSound(mimeType: string)
    ensures Icon(mimeType) in ["image", "file-text", "video", "file"]
    ensures Icon(mimeType) == "image" <==> Contains(mimeType, "image")
    ensures Icon(mimeType) == "file-text" <==> !Contains(mimeType, "image") && Contains(mimeType, "pdf")
    ensures Icon(mimeType) == "video" <==>
              !Contains(mimeType, "image") && !Contains(mimeType, "pdf") && Contains(mimeType, "video")
    ensures Icon(mimeType) == "file" <==>
              !Contains(mimeType, "image") && !Contains(mimeType, "pdf") && !Contains(mimeType, "video")
  {
  }

  /** Whether the filter tab `filter` shows `item`: `all` and any unknown
      tab show everything, `image` the image types, `doc` the pdf and text
      types. */
  predicate Shows(filter: string, item: DownloadItem) {
    if filter == "all" then true
    else if filter == "image" then Contains(item.mimeType, "image")
    else if filter == "doc" then Contains(item.mimeType, "pdf") || Contains(item.mimeType, "text")
    else true
  }

  /** `filteredDownloads` */
  function FilteredDownloads(downloads: seq<DownloadItem>, filter: string): seq<DownloadItem> {
    Filter(downloads, (item: DownloadItem) => Shows(filter, item))
  }

  /** The shown records are exactly the stored ones the tab accepts, in
      their order; `all` and any unknown tab show the whole list. */
  lemma FilteredDownloadsSound(downloads: seq<DownloadItem>, filter: string, d: DownloadItem)
    ensures d in FilteredDownloads(downloads, filter) <==> d in downloads && Shows(filter, d)
    ensures filter !in ["image", "doc"] ==> FilteredDownloads(downloads, filter) == downloads
    ensures forall a, b :: downloads == a + b ==>
              FilteredDownloads(downloads, filter) == FilteredDownloads(a, filter) + FilteredDownloads(b, filter)
  {
    var keep := (item: DownloadItem) => Shows(filter, item);
    FilterMembers(downloads, keep, d);
    if filter !in ["image", "doc"] {
      FilterKeepsAll(downloads, keep);
    }
    forall a, b | downloads == a + b
      ensures FilteredDownloads(downloads, filter) == FilteredDownloads(a, filter) + FilteredDownloads(b, filter)
    {
      FilterConcat(a, b, keep);
    }
  }

  /** The tabs agree with the icons: the image tab shows exactly the
      records drawn with the image icon, and every record drawn with the
      pdf icon is on the documents tab. */
  lemma TabsMatchIcons(d: DownloadItem)
    ensures Shows("image", d) <==> Icon(d.mimeType) == "image"
    ensures Icon(d.mimeType) == "file-text" ==> Shows("doc", d)
  {
  }

  /** The screen: the list on show and the selected tab. */
  class DownloadsScreen {
    var downloads: seq<DownloadItem>
    var filter: string

    constructor()
      ensures downloads == [] && filter == "all"
    {
      downloads := [];
      filter := "all";
    }

    /** What the screen lists. */
    function Visible(): seq<DownloadItem>
      reads this
    {
      FilteredDownloads(downloads, filter)
    }

    /** `loadDownloads`: the history the engine returns. */
    method LoadDownloads(engine: DownloadHistory)
      modifies this`downloads
      ensures downloads == engine.Current()
    {
      downloads := engine.Current();
    }

    method SetFilter(f: string)
      modifies this`filter
      ensures filter == f
    {
      filter := f;
    }

    /** `handleDelete(id, uri)`: the engine deletes; the list on show takes
        the engine's new list, and stays as it was when the file could not
        be removed. */
    method HandleDelete(engine: DownloadHistory, id: string, fileRemoved: bool)
      modifies this`downloads, engine`stored
      ensures fileRemoved ==> downloads == WithoutDownload(old(engine.Current()), id)
                              && engine.Current() == downloads
      ensures !fileRemoved ==> downloads == old(downloads) && engine.stored == old(engine.stored)
    {
      var updated := engine.DeleteFile(id, fileRemoved);
      if updated.Some? {
        downloads := updated.value;
      }
    }
  }

  /** After a successful delete no record with that id is on show, whatever
      the tab. */
  method DeleteHidesRecord(screen: DownloadsScreen, engine: DownloadHistory, id: string, d: DownloadItem)
    modifies screen`downloads, engine`stored
    ensures d in screen.Visible() ==> d.id != id
  {
    screen.HandleDelete(engine, id, true);
    WithoutDownloadSound(old(engine.Current()), id, d);
    FilteredDownloadsSound(screen.downloads, screen.filter, d);
  }
}
