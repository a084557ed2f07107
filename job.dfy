/**
 * The queued panorama job: it marks the scene as processing, lets the krpano
 * tiler cut the panorama, and on success appends a scene block for it before
 * </krpano> in the local master tour document, then marks the scene done; a
 * failed tiler run marks it failed. The tiler, the file system and the log
 * are not modelled: the tiler's exit status and the tour file are given.
 */
module Job {
  import opened Text
  import Naming
  import Markup
  import Blocks
  import Splices

  /** The processing status of a scene row; a new row starts out queued. */
  datatype Status = Queued | Processing | Done | Failed

  /** The scene row the job reads and updates. */
  class SceneRow {
    var title: Option<string>
    var location: Option<string>
    var panoramaPath: string
    var status: Status
    /** Every status the row was updated to, in order. */
    ghost var updates: seq<Status>

    constructor(title: Option<string>, location: Option<string>, panoramaPath: string)
      ensures this.title == title && this.location == location && this.panoramaPath == panoramaPath
      ensures status == Queued && updates == []
    {
      this.title := title;
      this.location := location;
      this.panoramaPath := panoramaPath;
      status := Queued;
      updates := [];
    }

    /** The row's status update, which is saved at once. */
    method SetStatus(s: Status)
      modifies this
      ensures status == s && updates == old(updates) + [s]
      ensures title == old(title) && location == old(location) && panoramaPath == old(panoramaPath)
    {
      status := s;
      updates := updates + [s];
    }
  }

  /** The master tour document on the local disk: whether it exists, and its text. */
  class TourFile {
    var present: bool
    var content: string

    constructor(present: bool, content: string)
      ensures this.present == present && this.content == content
    {
      this.present := present;
      this.content := content;
    }
  }

  /** A nullable column read with the empty string as its default. */
  function OrEmpty(x: Option<string>): string
  {
    if x.Some? then x.value else ""
  }

  /**
   * The job's scene block for a row: named by the sanitised file name of its
   * panorama, with the title (as title and places) and the location (as
   * subtitle) escaped.
   */
  function RowBlock(panoramaPath: string, title: Option<string>, location: Option<string>): string
  {
    Blocks.JobSceneBlock(Naming.JobSceneId(panoramaPath),
                         Markup.HtmlSpecialChars(OrEmpty(title)),
                         Markup.HtmlSpecialChars(OrEmpty(location)))
  }

  /**
   * The job's scene for a row: its opening tag is named by the bare
   * sanitised id (no "scene_" prefix, unlike the editors' scenes), made of
   * letters, digits, '_' and '-' only, and carries the escaped title (as
   * title and places) and location (as subtitle), neither of which can close
   * the attribute it sits in; its thumbnail, preview and cube faces all come
   * from panos/ID/vtour/panos/ID.tiles/.
   */
  lemma RowBlockOpening(panoramaPath: string, title: Option<string>, location: Option<string>)
    ensures var id := Naming.JobSceneId(panoramaPath);
            StartsWith(RowBlock(panoramaPath, title, location),
                       Blocks.JobIndent + Blocks.SceneTagText(Blocks.JobSceneAttrs(id, Markup.HtmlSpecialChars(OrEmpty(title)), Markup.HtmlSpecialChars(OrEmpty(location)))))
    ensures var id := Naming.JobSceneId(panoramaPath);
            Contains(RowBlock(panoramaPath, title, location), Blocks.AttrChunk(Blocks.Attribute("thumburl", Blocks.JobTiles(id) + "thumb.jpg"))) &&
            Contains(RowBlock(panoramaPath, title, location), "<preview url=\"" + Blocks.JobTiles(id) + "preview.jpg\"") &&
            Contains(RowBlock(panoramaPath, title, location), "<cube url=\"" + Blocks.JobTiles(id) + "%s/l%l/%0v_%0h.jpg\"")
    ensures forall i :: 0 <= i < |Naming.JobSceneId(panoramaPath)| ==> Naming.IsIdChar(Naming.JobSceneId(panoramaPath)[i])
    ensures Markup.AttributeSafe(Markup.HtmlSpecialChars(OrEmpty(title)))
    ensures Markup.AttributeSafe(Markup.HtmlSpecialChars(OrEmpty(location)))
  {
    var id := Naming.JobSceneId(panoramaPath);
    Blocks.JobSceneThumb(id, Markup.HtmlSpecialChars(OrEmpty(title)), Markup.HtmlSpecialChars(OrEmpty(location)));
    Blocks.JobScenePreview(id, Markup.HtmlSpecialChars(OrEmpty(title)), Markup.HtmlSpecialChars(OrEmpty(location)));
    Blocks.JobSceneCube(id, Markup.HtmlSpecialChars(OrEmpty(title)), Markup.HtmlSpecialChars(OrEmpty(location)));
  }

  /**
   * ProcessPanorama::handle. A missing row ends the job with nothing
   * changed. Otherwise the row is marked processing; a tiler exit status
   * other than 0 marks it failed and leaves the tour alone. On success the
   * row's block goes before every </krpano> of an existing tour document and
   * the row is marked done. Without a tour document the second write reads a
   * variable that was never set; the framework's error handler turns that
   * notice into an exception, which the job's own handler catches, so the
   * row is marked failed.
   */
  method Handle(scene: SceneRow?, tilerExit: int, tour: TourFile)
    modifies scene, tour
    ensures scene == null ==> unchanged(tour)
    ensures scene != null ==>
              scene.status == (if tilerExit == 0 && old(tour.present) then Done else Failed) &&
              scene.updates == old(scene.updates) + [Processing, scene.status] &&
              scene.title == old(scene.title) && scene.location == old(scene.location) &&
              scene.panoramaPath == old(scene.panoramaPath)
    ensures tour.present == old(tour.present)
    ensures scene != null && tilerExit == 0 && old(tour.present) ==>
              tour.content == Splices.InsertBeforeClose(old(tour.content), RowBlock(old(scene.panoramaPath), old(scene.title), old(scene.location)))
    ensures scene == null || tilerExit != 0 || !old(tour.present) ==> tour.content == old(tour.content)
  {
    if scene == null {
      return;
    }
    scene.SetStatus(Processing);
    if tilerExit != 0 {
      scene.SetStatus(Failed);
      return;
    }
    var block := Blocks.JobSceneBlock(Naming.JobSceneId(scene.panoramaPath),
                                      Markup.HtmlSpecialChars(OrEmpty(scene.title)),
                                      Markup.HtmlSpecialChars(OrEmpty(scene.location)));
    if tour.present {
      tour.content := Splices.InsertBeforeClose(tour.content, block);
      scene.SetStatus(Done);
    } else {
      scene.SetStatus(Failed);
    }
  }

  /** On a tour document with one </krpano> at k, the job's block lands right before it and nothing else changes. */
  lemma AppendsBeforeOnlyClose(doc: string, panoramaPath: string, title: Option<string>, location: Option<string>, k: nat)
    requires Find(doc, Splices.KrpanoClose, 0, false) == Some(k)
    requires !Contains(doc[k + |Splices.KrpanoClose|..], Splices.KrpanoClose)
    ensures Splices.InsertBeforeClose(doc, RowBlock(panoramaPath, title, location)) ==
            doc[..k] + RowBlock(panoramaPath, title, location) + doc[k..]
  {
    Splices.InsertBeforeOnlyClose(doc, RowBlock(panoramaPath, title, location), k);
  }
}
