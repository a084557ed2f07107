/**
 * The tour documents in the storage bucket, one per municipality under
 * "{slug}/tour.xml", and the load → edit → save helpers the controller and
 * the pipeline service run on them. Every helper loads the document, returns
 * when there is none, and saves its edit back under the same key; a helper
 * that calls others sees what each of them saved.
 */
module Editor {
  import opened Text
  import Naming
  import opened Splices
  import Metadata
  import Removal

  /** The document stored under the municipality's key, None when there is none. */
  function Stored(docs: map<string, string>, slug: string): Option<string>
  {
    var key := Naming.TourXmlKey(slug);
    if key in docs then Some(docs[key]) else None
  }

  /** The store after saving `r` under the municipality's key; unchanged when `r` is None. */
  function SavedIf(docs: map<string, string>, slug: string, r: Option<string>): map<string, string>
  {
    if r.Some? then docs[Naming.TourXmlKey(slug) := r.value] else docs
  }

  /** A second save under the same key overwrites the first. */
  lemma SavedOver(docs: map<string, string>, key: string, first: string, second: string)
    ensures docs[key := first][key := second] == docs[key := second]
  {
  }

  /** Removing a scene with the controller's two patterns: its scene blocks, then its layers. */
  function ControllerDeleted(doc: string, sceneId: string): string
  {
    Removal.ControllerRemoveLayer(Removal.ControllerRemoveScene(doc, sceneId), sceneId)
  }

  /** The service's deleteScene on a loaded document: each removal returns on a falsy document. */
  function ServiceDeleted(doc: Option<string>, sceneId: string): Option<string>
  {
    if Naming.IsFalsy(doc) then None
    else
      var mid := Removal.ServiceRemoveScene(doc.value, sceneId);
      if Naming.IsFalsy(Some(mid)) then Some(mid) else Some(Removal.ServiceRemoveLayer(mid, sceneId))
  }

  /** The bucket: object key → text of the tour document saved there. */
  class TourStore {
    var docs: map<string, string>

    constructor (initial: map<string, string>)
      ensures docs == initial
    {
      docs := initial;
    }

    /** loadTourXmlFromS3: the document under the municipality's key, None when it does not exist. */
    method Load(slug: string) returns (xml: Option<string>)
      ensures xml == Stored(docs, slug)
    {
      var key := Naming.TourXmlKey(slug);
      if key in docs {
        xml := Some(docs[key]);
      } else {
        xml := None;
      }
    }

    /** saveTourXmlToS3: the text is stored under the municipality's key, the other keys are untouched. */
    method Save(slug: string, xml: string)
      modifies this
      ensures docs == old(docs)[Naming.TourXmlKey(slug) := xml]
    {
      docs := docs[Naming.TourXmlKey(slug) := xml];
    }

    /**
     * One of the twelve injectors, the i-th appendSceneToXml calls: it returns
     * on a missing document, on a blank value or a missing anchor (the skip
     * leaves the text as the injection would), and otherwise saves the
     * document with its layer. `start` is the document the first injector
     * loaded and `base` the store before it saved.
     */
    method InjectStep(site: Site, slug: string, f: SceneForm, sceneId: string, thumb: string, i: nat,
                      ghost base: map<string, string>, ghost start: string)
      requires i < |Steps|
      requires docs == base[Naming.TourXmlKey(slug) := RunSteps(site, start, f, sceneId, thumb, Steps[..i])]
      modifies this
      ensures docs == base[Naming.TourXmlKey(slug) := RunSteps(site, start, f, sceneId, thumb, Steps[..i + 1])]
    {
      ghost var key := Naming.TourXmlKey(slug);
      var step := Steps[i];
      RunStepsNext(site, start, f, sceneId, thumb, i);
      var xml := Load(slug);
      if xml.None? {
        return;
      }
      if Skips(xml.value, f, step) {
        SkipKeepsDocument(site, xml.value, f, sceneId, thumb, step);
        return;
      }
      Save(slug, Inject(site, xml.value, f, sceneId, thumb, step));
      SavedOver(base, key, xml.value, Inject(site, xml.value, f, sceneId, thumb, step));
    }

    /**
     * The twelve injector calls that follow the scene block in
     * appendSceneToXml, in their order (Steps lists them), each on what the
     * one before saved.
     */
    method RunInjections(site: Site, slug: string, f: SceneForm, sceneId: string, thumb: string, ghost start: string)
      requires Naming.TourXmlKey(slug) in docs && docs[Naming.TourXmlKey(slug)] == start
      modifies this
      ensures docs == old(docs)[Naming.TourXmlKey(slug) := Injections(site, start, f, sceneId, thumb)]
    {
      ghost var key := Naming.TourXmlKey(slug);
      ghost var base := docs;
      assert docs == base[key := RunSteps(site, start, f, sceneId, thumb, Steps[..0])];
      var i := 0;
      while i < |Steps|
        invariant i <= |Steps|
        invariant docs == base[key := RunSteps(site, start, f, sceneId, thumb, Steps[..i])]
      {
        InjectStep(site, slug, f, sceneId, thumb, i, base, start);
        i := i + 1;
      }
      assert Steps[..i] == Steps;
    }

    /**
     * The controller's appendSceneToXml: nothing is saved when the document
     * is missing or has no </krpano>; otherwise the scene block goes before
     * the closing tag and the injectors run on the saved text.
     */
    method ControllerAppend(slug: string, sceneId: string, f: SceneForm, thumb: string, preview: string, cubeUrl: string, multires: string)
      modifies this
      ensures docs == SavedIf(old(docs), slug, ControllerAppendScene(Stored(old(docs), slug), sceneId, f, thumb, preview, cubeUrl, multires))
    {
      var xml := Load(slug);
      if xml.Some? && Contains(xml.value, KrpanoClose) {
        var inserted := InsertBeforeClose(xml.value, ControllerScene(sceneId, f, thumb, preview, cubeUrl, multires));
        Save(slug, inserted);
        RunInjections(Controller, slug, f, sceneId, thumb, inserted);
        SavedOver(old(docs), Naming.TourXmlKey(slug), inserted, Injections(Controller, inserted, f, sceneId, thumb));
      }
    }

    /**
     * The service's appendSceneToXml: `ok` is false where it throws (a
     * missing, empty or "0" document) and nothing is saved; otherwise the
     * scene block goes before every </krpano> and the injectors run.
     */
    method ServiceAppend(slug: string, sceneId: string, f: SceneForm, thumb: string, preview: string, cubeUrl: string, multires: string)
      returns (ok: bool)
      modifies this
      ensures ok <==> !Naming.IsFalsy(Stored(old(docs), slug))
      ensures docs == SavedIf(old(docs), slug, ServiceAppendScene(Stored(old(docs), slug), sceneId, f, thumb, preview, cubeUrl, multires))
    {
      var xml := Load(slug);
      ok := !Naming.IsFalsy(xml);
      if ok {
        var inserted := InsertBeforeClose(xml.value, ServiceScene(sceneId, f, thumb, preview, cubeUrl, multires));
        Save(slug, inserted);
        RunInjections(Service, slug, f, sceneId, thumb, inserted);
        SavedOver(old(docs), Naming.TourXmlKey(slug), inserted, Injections(Service, inserted, f, sceneId, thumb));
      }
    }

    /** updateSceneMetaInXml: every opening tag of scene_ID retitled; a missing document is left alone. */
    method UpdateSceneMetaInXml(slug: string, sceneId: string, title: string, subtitle: string)
      modifies this
      ensures Stored(old(docs), slug).None? ==> docs == old(docs)
      ensures Stored(old(docs), slug).Some? ==>
                docs == old(docs)[Naming.TourXmlKey(slug) := Metadata.UpdateSceneMeta(Stored(old(docs), slug).value, sceneId, title, subtitle)]
    {
      var xml := Load(slug);
      if xml.None? {
        return;
      }
      Save(slug, Metadata.UpdateSceneMeta(xml.value, sceneId, title, subtitle));
    }

    /**
     * updateLayerMetaInXml: nothing is saved without a document or without a
     * layer block linked to scene_ID; otherwise every copy of that block is
     * replaced by its edited form.
     */
    method UpdateLayerMetaInXml(slug: string, sceneId: string, name: string, barangay: string)
      modifies this
      ensures Stored(old(docs), slug).None? ==> docs == old(docs)
      ensures Stored(old(docs), slug).Some? ==>
                docs == SavedIf(old(docs), slug, Metadata.UpdateLayerMeta(Stored(old(docs), slug).value, sceneId, name, barangay))
    {
      var xml := Load(slug);
      if xml.None? {
        return;
      }
      var edited := Metadata.UpdateLayerMeta(xml.value, sceneId, name, barangay);
      if edited.None? {
        return;
      }
      Save(slug, edited.value);
    }

    /**
     * The edit of a scene without a new panorama: the scene's tags get the
     * new title and location, then its layer the new title and barangay,
     * the second edit loading what the first saved.
     */
    method UpdateMeta(slug: string, sceneId: string, title: string, location: string, barangay: string)
      modifies this
      ensures Stored(old(docs), slug).None? ==> docs == old(docs)
      ensures Stored(old(docs), slug).Some? ==>
                var retitled := Metadata.UpdateSceneMeta(Stored(old(docs), slug).value, sceneId, title, location);
                docs == old(docs)[Naming.TourXmlKey(slug) := match Metadata.UpdateLayerMeta(retitled, sceneId, title, barangay)
                                                            case Some(d) => d
                                                            case None => retitled]
    {
      UpdateSceneMetaInXml(slug, sceneId, title, location);
      UpdateLayerMetaInXml(slug, sceneId, title, barangay);
    }

    /** The controller's removeSceneFromXml: every block of scene_ID cut; a missing document is left alone. */
    method ControllerRemoveSceneFromXml(slug: string, sceneId: string)
      modifies this
      ensures Stored(old(docs), slug).None? ==> docs == old(docs)
      ensures Stored(old(docs), slug).Some? ==>
                docs == old(docs)[Naming.TourXmlKey(slug) := Removal.ControllerRemoveScene(Stored(old(docs), slug).value, sceneId)]
    {
      var xml := Load(slug);
      if xml.None? {
        return;
      }
      Save(slug, Removal.ControllerRemoveScene(xml.value, sceneId));
    }

    /** The controller's removeLayerFromXml: every layer linked to scene_ID cut; a missing document is left alone. */
    method ControllerRemoveLayerFromXml(slug: string, sceneId: string)
      modifies this
      ensures Stored(old(docs), slug).None? ==> docs == old(docs)
      ensures Stored(old(docs), slug).Some? ==>
                docs == old(docs)[Naming.TourXmlKey(slug) := Removal.ControllerRemoveLayer(Stored(old(docs), slug).value, sceneId)]
    {
      var xml := Load(slug);
      if xml.None? {
        return;
      }
      Save(slug, Removal.ControllerRemoveLayer(xml.value, sceneId));
    }

    /**
     * The controller's destroy on the tour document: the scene, then its
     * layers. On a document whose tags are closed, no block of the scene and
     * no layer linked to it is left, and the tags stay closed.
     */
    method ControllerDelete(slug: string, sceneId: string)
      modifies this
      ensures Stored(old(docs), slug).None? ==> docs == old(docs)
      ensures Stored(old(docs), slug).Some? ==>
                docs == old(docs)[Naming.TourXmlKey(slug) := ControllerDeleted(Stored(old(docs), slug).value, sceneId)]
      ensures Stored(old(docs), slug).Some? && Removal.TagsClosed(Stored(old(docs), slug).value) ==>
                var d := docs[Naming.TourXmlKey(slug)];
                Removal.NoMatch(Patterns.SceneBlock(sceneId), d) && Removal.NoMatch(Patterns.LayerBlock(sceneId), d) && Removal.TagsClosed(d)
    {
      ControllerRemoveSceneFromXml(slug, sceneId);
      ControllerRemoveLayerFromXml(slug, sceneId);
      if Stored(old(docs), slug).Some? && Removal.TagsClosed(Stored(old(docs), slug).value) {
        Removal.RemoveSceneThenLayers(Stored(old(docs), slug).value, sceneId);
      }
    }

    /**
     * The edit of a scene with a new panorama, on the tour documents: the old
     * scene and its layers leave the old municipality's document, then the
     * new scene goes into the new municipality's document, which is the same
     * document when the municipality did not change.
     */
    method Retile(oldSlug: string, oldSceneId: string, newSlug: string, newSceneId: string,
                  f: SceneForm, thumb: string, preview: string, cubeUrl: string, multires: string)
      modifies this
      ensures var removed := if Stored(old(docs), oldSlug).None? then old(docs)
                             else old(docs)[Naming.TourXmlKey(oldSlug) := ControllerDeleted(Stored(old(docs), oldSlug).value, oldSceneId)];
              docs == SavedIf(removed, newSlug, ControllerAppendScene(Stored(removed, newSlug), newSceneId, f, thumb, preview, cubeUrl, multires))
    {
      ControllerDelete(oldSlug, oldSceneId);
      ControllerAppend(newSlug, newSceneId, f, thumb, preview, cubeUrl, multires);
    }

    /** The service's removeSceneFromXml: it returns on a falsy document, else cuts every `scene_ID` block. */
    method ServiceRemoveSceneFromXml(slug: string, sceneId: string)
      modifies this
      ensures Naming.IsFalsy(Stored(old(docs), slug)) ==> docs == old(docs)
      ensures !Naming.IsFalsy(Stored(old(docs), slug)) ==>
                docs == old(docs)[Naming.TourXmlKey(slug) := Removal.ServiceRemoveScene(Stored(old(docs), slug).value, sceneId)]
    {
      var xml := Load(slug);
      if Naming.IsFalsy(xml) {
        return;
      }
      Save(slug, Removal.ServiceRemoveScene(xml.value, sceneId));
    }

    /** The service's removeLayerFromXml: it returns on a falsy document, else cuts every linked layer. */
    method ServiceRemoveLayerFromXml(slug: string, sceneId: string)
      modifies this
      ensures Naming.IsFalsy(Stored(old(docs), slug)) ==> docs == old(docs)
      ensures !Naming.IsFalsy(Stored(old(docs), slug)) ==>
                docs == old(docs)[Naming.TourXmlKey(slug) := Removal.ServiceRemoveLayer(Stored(old(docs), slug).value, sceneId)]
    {
      var xml := Load(slug);
      if Naming.IsFalsy(xml) {
        return;
      }
      Save(slug, Removal.ServiceRemoveLayer(xml.value, sceneId));
    }

    /** The service's deleteScene on the tour document: the scene, then its layers. */
    method ServiceDelete(slug: string, sceneId: string)
      modifies this
      ensures docs == SavedIf(old(docs), slug, ServiceDeleted(Stored(old(docs), slug), sceneId))
    {
      ServiceRemoveSceneFromXml(slug, sceneId);
      ServiceRemoveLayerFromXml(slug, sceneId);
    }
  }
}
