# Cebu Province CMS — the tour document editor, in Dafny

The CMS publishes each municipality's 360° tour as one krpano document,
`{slug}/tour.xml`, in an object store. Creating, editing and deleting a scene
rewrites that document as text:
- a `<scene>` block goes in before `</krpano>`;
- twelve "injectors" each put one layer (thumbnail, map, title, barangay,
  category, address, phone, e-mail, website, Facebook, Instagram, TikTok) right
  after the opening tag of an anchor layer such as `topni` or `sidemap`;
- metadata edits retag the scene's tag and its linked layer;
- deletions cut the scene's blocks and its linked layers out.

Two copies of this logic exist, the scene controller and the pipeline service,
and they differ in small ways. The panorama job appends its own scene block to
a local tour file and moves the scene row through its statuses.

The model is split into these modules:
- `Text`: the PHP string functions the code is built from (`str_replace`, `trim`, `pathinfo`, …).
- `Patterns`: the regular expressions the core uses, as explicit matchers, and the `preg_replace` scanning engine (every match, or the first only) with replacement-string expansion.
- `Naming`: municipality slug, object keys, iframe `src` extraction, upload file names and scene ids, the service's prefix stripping and asset paths, and the folder upload loop.
- `Markup`: `htmlspecialchars` with `ENT_QUOTES`, its inverse, and the two thumbnail captions.
- `Blocks`: the scene and layer markup the code writes.
- `Splices`: the scene block before `</krpano>`, the anchored injections and the whole append.
- `Metadata`: the controller's edits of a scene already in the document.
- `Removal`: the controller's and the service's deletions.
- `Editor`: the `TourStore` class, a map from object key to document. Its methods load, edit and save in the order the controller and the service do, each helper seeing what the previous one saved. The anchored injections insert their layer literally, which is what the source intends but not what it does (see Findings).
- `Job`: the `SceneRow` and `TourFile` classes and the job's `Handle` method.

## Model

All paths are under `app/`.

| member | source | states |
|---|---|---|
| Naming.MunicipalSlug | app/Http/Controllers/SceneController.php:17-20 | The slug has no space, slash, back-slash or ASCII upper-case letter, and no surrounding white space. |
| Naming.MunicipalSlugIdempotent | app/Http/Controllers/SceneController.php:17-20 | Slugging a slug gives it back unchanged. |
| Naming.TourXmlKeyInjective | app/Http/Controllers/SceneController.php:38-42 | Two different slugs never share a tour document key. |
| Naming.SlugsMerge | app/Http/Controllers/SceneController.php:17-20 | "Cebu City" and "cebu_city" get the same slug, so the two names share one tour document. |
| Naming.ExtractIframeSrc | app/Http/Controllers/SceneController.php:22-33 | Null exactly for a falsy input. Otherwise: the value of the leftmost quoted `src` attribute when there is one, else the input itself. |
| Naming.StoredFilename | app/Http/Controllers/SceneController.php:104-105 | A stored upload name contains no space. |
| Naming.UploadSceneIdHasNoSpace | app/Http/Controllers/SceneController.php:104-107 | The scene id of an upload contains no space. |
| Naming.UploadSceneIdShape | app/Http/Controllers/SceneController.php:104-107 | For a client name without '/', the id is timestamp, '_', then the name with spaces turned into '_' and its last extension dropped. |
| Naming.SanitizeId | app/Jobs/ProcessPanorama.php:41 | Same length; only letters, digits, '_' and '-'. Allowed characters are kept and every other character becomes '_'. |
| Naming.SanitizeIdFixesCleanIds | app/Jobs/ProcessPanorama.php:67 | A clean id is left alone, so sanitising is idempotent. |
| Naming.JobSceneId | app/Jobs/ProcessPanorama.php:67 | The job's id has the file stem's length and only id characters. |
| Naming.StripMunicipal | app/Services/ScenePipelineService.php:18-25 | Leading slashes go. Then a leading "{slug}/" goes exactly when present, and nothing else changes. |
| Naming.StripMunicipalOnce | app/Services/ScenePipelineService.php:18-25 | Only one municipal prefix is removed; a doubled prefix keeps its second copy. |
| Naming.ServiceAssetPaths | app/Services/ScenePipelineService.php:62-86 | multires comes from the tiler's config when there is one, else it is "512,1024,2048". |
| Naming.ServiceConfigPaths | app/Services/ScenePipelineService.php:62-78 | With a config, thumb, preview and cube are "{sceneId}/…": relative to the scene folder, without the municipal prefix. |
| Naming.ServiceFallbackPaths | app/Services/ScenePipelineService.php:79-86 | Without a config the paths keep the full "{slug}/{sceneId}/panos/{sceneId}.tiles" prefix, one municipal prefix more than the config branch. |
| Naming.UploadFolder | app/Http/Controllers/SceneController.php:544-620 | The controller uploads nothing for a missing folder. Otherwise the loop's uploads are exactly `Uploads` of the listing, in order. |
| Naming.UploadsSound | app/Http/Controllers/SceneController.php:565-584 | Every upload is a listed file that is not skipped, written under its key. |
| Naming.UploadsComplete | app/Http/Controllers/SceneController.php:565-584 | Every listed file that is not skipped is uploaded under its key. |
| Naming.ControllerUploadKeysTrimmed | app/Http/Controllers/SceneController.php:580-584 | No controller key starts or ends with '/'. |
| Naming.ControllerKeyShape | app/Http/Controllers/SceneController.php:580-584 | A controller key is the remote folder, '/', then the relative path with back-slashes turned into '/'. |
| Naming.ServiceUploadsSkippedFiles | app/Services/ScenePipelineService.php:186-193 | A file the controller skips as executable is still uploaded by the service. |
| Markup.HtmlSpecialChars | app/Http/Controllers/SceneController.php:657-658 | The output cannot close a quoted attribute or open a tag. It is no shorter than the input, and text without special characters is unchanged. |
| Markup.EscapeRoundTrip | app/Http/Controllers/SceneController.php:657-658 | Decoding the escaped text gives the original back. |
| Markup.LabelsAgreeUpToCase | app/Http/Controllers/SceneController.php:771 | The controller's and the service's captions have the title's length, have no '_', and are equal up to case. The controller's caption has no lower-case letter; the service's has none after the first character. |
| Markup.LabelsDiffer | app/Services/ScenePipelineService.php:246 | For every title whose second character is an ASCII letter, the two captions differ: that letter is upper-case in the controller's and lower-case in the service's. |
| Blocks.JobSceneThumb | app/Jobs/ProcessPanorama.php:74-75 | The job's scene tag takes its thumbnail, `thumburl="panos/ID/vtour/panos/ID.tiles/thumb.jpg"`, from the tiler's folder. |
| Blocks.JobScenePreview | app/Jobs/ProcessPanorama.php:77 | The job's preview URL is `panos/ID/vtour/panos/ID.tiles/preview.jpg`. |
| Blocks.JobSceneCube | app/Jobs/ProcessPanorama.php:70-79 | The job's cube URL is `panos/ID/vtour/panos/ID.tiles/%s/l%l/%0v_%0h.jpg`. |
| Splices.InsertBeforeEveryClose | app/Http/Controllers/SceneController.php:676 | The block is inserted before every `</krpano>`, and the rest of the text is kept piece by piece. |
| Splices.InsertWithoutClose | app/Services/ScenePipelineService.php:223 | A document without `</krpano>` is left unchanged. |
| Splices.InsertBeforeOnlyClose | app/Http/Controllers/SceneController.php:676 | With a single `</krpano>`, the block goes in right before it. |
| Splices.InjectIsLiteralRewrite | app/Http/Controllers/SceneController.php:795-799 | The corrected injection equals a first-match rewrite with the opening tag, a newline and the layer, all taken literally. |
| Splices.AsWrittenIsTemplateRewrite | app/Http/Controllers/SceneController.php:797-799 | The injection as written equals `preg_replace` with the built text read as a replacement template. |
| Splices.AsWrittenAgreesOnPlainText | app/Http/Controllers/SceneController.php:797-799 | When neither the tag nor the layer holds '$' or '\\', the injection as written equals the corrected one. |
| Splices.AsWrittenExpandsDollarOne | app/Http/Controllers/SceneController.php:797-799 | A "$1" in user text is replaced by the anchor's opening tag. |
| Splices.InjectionsStack | app/Http/Controllers/SceneController.php:684-760 | Two injections under one anchor stack newest first. |
| Splices.InsertAfterEveryTagFirst | app/Http/Controllers/SceneController.php:863-910 | appendTitle puts the layer after the anchor tag and also after every later copy of that tag. |
| Splices.InjectThumb | app/Http/Controllers/SceneController.php:766-806 | Without `topni` the document is unchanged. Otherwise the thumbnail layer, with the escaped title and the site's caption, goes right after the anchor. |
| Splices.InjectMap | app/Http/Controllers/SceneController.php:811-861 | A falsy map link or a missing `sidemap` leaves the document unchanged. Otherwise the map layer goes after the anchor. |
| Splices.InjectTitle | app/Http/Controllers/SceneController.php:863-910 | A blank title or a missing `scrollarea6` leaves the document unchanged. |
| Splices.InjectDetail | app/Http/Controllers/SceneController.php:912-1321 | A blank value or a missing anchor leaves the document unchanged. Otherwise the escaped detail layer goes right after the anchor. |
| Splices.SkipKeepsDocument | app/Http/Controllers/SceneController.php:912-955 | An injector that returns early leaves the document as it was. |
| Splices.RunStepsSnoc | app/Http/Controllers/SceneController.php:684-760 | Each injector runs on what the previous ones produced. |
| Splices.InjectionsWithoutAnchors | app/Http/Controllers/SceneController.php:684-760 | A document with none of the anchors passes through all twelve injectors unchanged. |
| Splices.BlankFormAddsThumbOnly | app/Http/Controllers/SceneController.php:684-760 | With a blank form and no map, every injector except the thumbnail leaves the document alone. |
| Splices.ControllerAppendScene | app/Http/Controllers/SceneController.php:650-677 | Something is saved exactly when the document exists and holds `</krpano>`. |
| Splices.ServiceAppendScene | app/Services/ScenePipelineService.php:200-239 | The service fails exactly on a falsy document. |
| Splices.ServiceAppendWithoutClose | app/Services/ScenePipelineService.php:209-224 | Without `</krpano>` the service still runs the injectors, and saves. |
| Splices.AppendCopiesDiffer | app/Services/ScenePipelineService.php:209-224 | On the same document without `</krpano>`, the controller saves nothing while the service saves the document. |
| Metadata.UpdateSceneMetaWithoutScene | app/Http/Controllers/SceneController.php:1326-1354 | Without an opening tag of the scene, the document is saved as it was loaded. |
| Metadata.UpdateSceneMetaAtTag | app/Http/Controllers/SceneController.php:1334-1346 | The first opening tag is retagged in place, the text before it is kept, and the rest is edited the same way. |
| Metadata.RetagSceneTag | app/Http/Controllers/SceneController.php:1336-1344 | On a `<scene …>` tag written as a list of attributes with plain values, the callback keeps every key and its place. A key ending in "places" takes the new title, one ending in "subtitle" the new subtitle, and one ending in "title" the new title; every other value is kept. |
| Metadata.ControllerSceneRetitled | app/Http/Controllers/SceneController.php:1336-1344 | Retitling the tag the controller's append wrote gives the tag it would have written with the new title and subtitle: name, onstart and thumbnail kept, places following the title. |
| Metadata.ServiceSceneRetitled | app/Http/Controllers/SceneController.php:1336-1344 | The same for the service's tag, which has no places attribute. |
| Metadata.JobSceneRetitled | app/Http/Controllers/SceneController.php:1336-1344 | The same for the job's tag: its bare name and the tiler's thumbnail are kept. |
| Metadata.SetFirstAttr | app/Http/Controllers/SceneController.php:1384-1396 | `preg_replace` with limit 1 on an attribute: the first `NAME="…"` becomes `NAME="VALUE"`, and the text before and after it is kept. |
| Metadata.RetagLayerAttrs | app/Http/Controllers/SceneController.php:1384-1403 | The edited layer block is the block with its first name value and then its first barangay value replaced in place, followed by the rewrite of its first text label. |
| Metadata.UpdateLayerMeta | app/Http/Controllers/SceneController.php:1369-1376 | Nothing is saved exactly when no layer block is linked to the scene. |
| Metadata.UpdateLayerMetaAt | app/Http/Controllers/SceneController.php:1369-1405 | The first linked block is replaced by its edited form, with the text before it kept and later copies replaced too. |
| Removal.CutWithoutMatch | app/Http/Controllers/SceneController.php:1417-1431 | With nothing to remove, the document is unchanged. |
| Removal.RemoveSceneThenLayers | app/Http/Controllers/SceneController.php:355-380 | On markup with closed tags, no block of the scene and no linked layer remain after the deletion, and tags stay closed. |
| Removal.RemoveSceneIdempotent | app/Http/Controllers/SceneController.php:1417-1431 | Removing a scene twice is the same as removing it once. |
| Removal.RemoveLayerIdempotent | app/Http/Controllers/SceneController.php:1436-1457 | Removing a scene's layers twice is the same as removing them once. |
| Removal.RemoveWithoutElements | app/Http/Controllers/SceneController.php:355-380 | A document without the scene's elements is unchanged by its deletion. |
| Removal.CutKeepsTagsClosed | app/Http/Controllers/SceneController.php:1423 | Cutting tag-shaped matches keeps every tag closed. |
| Removal.NoMatchAfterCut | app/Http/Controllers/SceneController.php:1449 | On closed markup, after every match of a tag-opening pattern is cut, no match of a block pattern it covers is left: no two pieces are glued into a new match. |
| Removal.ServiceRemovesLongerIds | app/Services/ScenePipelineService.php:817 | The service deletes the scene whose id extends the given id by a digit; the controller keeps it. |
| Removal.ServiceSwallowsNextLayer | app/Services/ScenePipelineService.php:826 | The service's cut of a self-closed linked layer runs on through the next layer's close; the controller leaves that layer. |
| Editor.TourStore.Load | app/Http/Controllers/SceneController.php:44-67 | The document under the municipality's key, or none. |
| Editor.TourStore.Save | app/Http/Controllers/SceneController.php:69-87 | The document is stored under the municipality's key, and the other keys are untouched. |
| Editor.TourStore.InjectStep | app/Http/Controllers/SceneController.php:766-806 | One injector: load, return early or save, leaving exactly the next step's document under the key. |
| Editor.TourStore.RunInjections | app/Http/Controllers/SceneController.php:684-760 | The twelve calls leave the key holding the twelve injections applied in order. |
| Editor.TourStore.ControllerAppend | app/Http/Controllers/SceneController.php:650-761 | The store after appendSceneToXml is the modelled append saved under the key, or the store unchanged. |
| Editor.TourStore.ServiceAppend | app/Services/ScenePipelineService.php:200-239 | `ok` is false exactly where the service throws. Otherwise the append is saved. |
| Editor.TourStore.UpdateSceneMetaInXml | app/Http/Controllers/SceneController.php:1326-1354 | A missing document changes nothing. Otherwise the retitled document is saved. |
| Editor.TourStore.UpdateLayerMetaInXml | app/Http/Controllers/SceneController.php:1359-1412 | No document, or no linked layer, changes nothing. Otherwise the edited document is saved. |
| Editor.TourStore.UpdateMeta | app/Http/Controllers/SceneController.php:220-232 | The layer edit runs on the document the scene edit saved. |
| Editor.TourStore.ControllerRemoveSceneFromXml | app/Http/Controllers/SceneController.php:1417-1431 | A missing document changes nothing. Otherwise the document without the scene's blocks is saved. |
| Editor.TourStore.ControllerRemoveLayerFromXml | app/Http/Controllers/SceneController.php:1436-1457 | A missing document changes nothing. Otherwise the document without the linked layers is saved. |
| Editor.TourStore.ControllerDelete | app/Http/Controllers/SceneController.php:371-373 | Scene, then layers, removed. On closed markup, none of the scene's elements remain. |
| Editor.TourStore.Retile | app/Http/Controllers/SceneController.php:341-345 | The old scene leaves the old municipality's document before the new one is appended, possibly to the same document. |
| Editor.TourStore.ServiceRemoveSceneFromXml | app/Services/ScenePipelineService.php:812-819 | A falsy document changes nothing. Otherwise the service's cut is saved. |
| Editor.TourStore.ServiceRemoveLayerFromXml | app/Services/ScenePipelineService.php:821-828 | A falsy document changes nothing. Otherwise the service's cut is saved. |
| Editor.TourStore.ServiceDelete | app/Services/ScenePipelineService.php:117-125 | deleteScene's two removals, each on what the other saved. |
| Job.SceneRow.SetStatus | app/Jobs/ProcessPanorama.php:29 | The status is set and the update recorded; the other columns are unchanged. |
| Job.RowBlockOpening | app/Jobs/ProcessPanorama.php:65-81 | The row's block opens with the job's attribute list: the clean id as name, then the escaped title and location, which cannot break their attribute. Its thumbnail, preview and cube URLs all lie under `panos/ID/vtour/panos/ID.tiles/`. |
| Job.Handle | app/Jobs/ProcessPanorama.php:24-106 | A missing row changes nothing. Otherwise the row goes processing, then done when the tiler exits with 0 and the tour file exists, and failed otherwise. The block goes before `</krpano>` only in the done case. |
| Job.AppendsBeforeOnlyClose | app/Jobs/ProcessPanorama.php:84-91 | With one `</krpano>`, the job's block lands right before it. |
| Patterns.RewriteAtFirstMatch | app/Http/Controllers/SceneController.php:1423 | preg_replace keeps the text before the first match, replaces the match, and goes on after it. |

## Left out

- Object-store and disk I/O: reading and writing objects become `TourStore.docs`, and the job's local tour file becomes `TourFile`. `Storage::url`, the temporary folders, `forceDeleteS3Directory` and `deleteLocalFolder` are not modelled.
- The krpano tiler: `runKrpano` and the `exec` call are not modelled, and the job takes the exit status as a parameter. `extractKrpanoSceneConfig` becomes an optional `KrpanoConfig` input.
- HTTP validation, Eloquent queries, queues, the `ProcessSceneJob` class and logging are not modelled.
- The service's `updateSceneMeta` calls edit helpers that the service does not define, so it is not modelled.
- Concurrent requests on one tour document are not modelled. Each method runs alone.
- Regular expressions are modelled only as far as these patterns need. `[^>]*` is read as "within one tag", and an id containing '>' or pattern-special characters is outside the model.
- Removal.RemoveSceneThenLayers: proved only for markup whose every '<' is closed by '>' before the next '<' (`TagsClosed`). On other text a cut may glue two pieces into a new match.
- Job.Handle: assumes the framework's error handler, which turns the undefined-variable notice of app/Jobs/ProcessPanorama.php:93 into an exception. Line 102 catches it, so a missing tour file leaves the file alone and ends the row failed. The handler itself is not modelled.
- Editor.TourStore.RunInjections: runs the injectors by walking the list of steps, where the source makes twelve explicit calls in the same order.
- Metadata.RetagScene: the new title and subtitle are inserted literally. The source passes them to `preg_replace` as replacement strings, where `$n` or `\n` in user text would be expanded. The same holds for the name and barangay values in Metadata.RetagLayerAttrs and Metadata.SetFirstAttr.
- Metadata.RetagSceneTag: characterises only values without '"' that do not end in '='. Such a value can end the pattern's match early or start a false match; those tags are outside the lemma.
- Splices.InjectThumb: inserts its layer literally, which is what the source intends. The source's `preg_replace` reads the built text as a replacement template, which expands `$n` and `\n` (Findings, first row). The two agree when the text holds no '$' or '\' (Splices.AsWrittenAgreesOnPlainText).
- Splices.InjectMap: inserts literally where the source expands the template, as for Splices.InjectThumb.
- Splices.InjectDetail: inserts literally where the source expands the template, as for Splices.InjectThumb.
- Splices.ControllerAppendScene: its injections insert literally, as for Splices.InjectThumb.
- Splices.ServiceAppendScene: its injections insert literally, as for Splices.InjectThumb.
- Editor.TourStore.InjectStep: saves the literal injection, as for Splices.InjectThumb.
- Editor.TourStore.RunInjections: saves the literal injections, as for Splices.InjectThumb.
- Editor.TourStore.ControllerAppend: saves the literal injections, as for Splices.InjectThumb.
- Editor.TourStore.ServiceAppend: saves the literal injections, as for Splices.InjectThumb.
- Naming.SanitizeId: characters are Unicode code points. PHP's `preg_replace` without the `u` flag works on bytes, so a non-ASCII letter becomes one '_' per byte of its UTF-8 encoding ("Niño" gives "Ni__o"); non-ASCII names are outside the model. The same holds for Naming.JobSceneId.
- Markup.HtmlSpecialChars: works on code points. PHP's `htmlspecialchars` returns "" on invalid UTF-8; such input is outside the model.
- The controller's `store` and `update` build thumbnail, preview and cube URLs through `Storage::url`. Those URLs are inputs of the model.

## Findings

| source | as written | input that shows it | evidently intended | confidence | as-written member | corrected member |
|---|---|---|---|---|---|---|
| app/Http/Controllers/SceneController.php:797-799 | The anchored injectors pass the opening tag, a newline and the layer to `preg_replace` as a replacement template. | A barangay value `x$1y` | The layer text inserted literally after the anchor | not executed | Splices.AsWrittenExpandsDollarOne | Splices.InjectIsLiteralRewrite |
| app/Services/ScenePipelineService.php:817 | The scene pattern has no closing quote after the id. | Deleting id `1` | Delete only the given scene: the controller's pattern ends the name with `"` | not executed | Removal.ServiceRemovesLongerIds | Removal.RemoveSceneThenLayers |
| app/Services/ScenePipelineService.php:826 | The layer pattern requires a `</layer>` | A self-closed linked layer followed by an unrelated layer | Cut only the linked layer: the controller's pattern accepts `/>` | not executed | Removal.ServiceSwallowsNextLayer | Removal.RemoveSceneThenLayers |
