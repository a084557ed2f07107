/**
 * The XML fragments the editors splice into a municipality's tour document:
 * the three spellings of a new <scene> (controller, pipeline service and
 * panorama job) and the layers the anchored injectors add. Every parameter is
 * inserted as given; the callers escape what the source escapes.
 */
module Blocks {
  import opened Text

  /** A piece of a block's text: fixed text, or the i-th value interpolated into it. */
  datatype Piece = Text(text: string) | Arg(i: nat)

  /** The text of a template with its values filled in; a missing value reads as empty. */
  function Render(t: seq<Piece>, args: seq<string>): string
  {
    if t == [] then []
    else
      var head := match t[0] case Text(x) => x case Arg(i) => if i < |args| then args[i] else [];
      head + Render(t[1..], args)
  }

  /** Rendering a text and a value in front of the rest. */
  lemma RenderTextArg(a: string, i: nat, t: seq<Piece>, args: seq<string>)
    requires i < |args|
    ensures Render([Text(a), Arg(i)] + t, args) == a + args[i] + Render(t, args)
  {
    var ps := [Text(a), Arg(i)] + t;
    assert ps[1..] == [Arg(i)] + t;
    assert ps[1..][1..] == t;
  }

  // ---------------------------------------------------------------------------
  // Scene blocks
  // ---------------------------------------------------------------------------

  /** One attribute of an opening tag. */
  datatype Attribute = Attribute(key: string, value: string)

  /** The attribute as it is written into the tag: a space, KEY, '=' and the value in double quotes. */
  function AttrChunk(a: Attribute): string
  {
    " " + a.key + "=\"" + a.value + "\""
  }

  /** The attributes of a tag, one after the other. */
  function AttrsText(attrs: seq<Attribute>): string
  {
    if attrs == [] then [] else AttrChunk(attrs[0]) + AttrsText(attrs[1..])
  }

  /** `<scene` with its attributes, then `>`. */
  function SceneTagText(attrs: seq<Attribute>): string
  {
    "<scene" + AttrsText(attrs) + ">"
  }

  /** A tag's attributes end with the last one written. */
  lemma {:induction false} AttrsTextSnoc(attrs: seq<Attribute>, a: Attribute)
    ensures AttrsText(attrs + [a]) == AttrsText(attrs) + AttrChunk(a)
    decreases |attrs|
  {
    if attrs == [] {
      assert [] + [a] == [a];
      assert [a][1..] == [];
    } else {
      assert (attrs + [a])[1..] == attrs[1..] + [a];
      AttrsTextSnoc(attrs[1..], a);
    }
  }

  /** The attributes of the controller's scene tag, in the order it writes them. */
  function ControllerSceneAttrs(sceneId: string, title: string, subtitle: string, thumb: string): seq<Attribute>
  {
    [Attribute("name", "scene_" + sceneId), Attribute("title", title), Attribute("subtitle", subtitle),
     Attribute("onstart", "filterLayersByPlace"), Attribute("places", title), Attribute("thumburl", thumb)]
  }

  /** The elements of the controller's scene after its opening tag: values 0, 1 and 2 are the preview, cube and multires URLs. */
  const ControllerSceneBody: seq<Piece> :=
    [Text("\n  <view hlookat=\"0\" vlookat=\"0\""),
     Text(" fovtype=\"MFOV\" fov=\"120\""),
     Text(" maxpixelzoom=\"2.0\" fovmin=\"70\""),
     Text(" fovmax=\"140\" limitview=\"auto\" />"),
     Text("\n  <preview url=\""),
     Arg(0),
     Text("\" />"),
     Text("\n  <image>"),
     Text("\n    <cube url=\""),
     Arg(1),
     Text("\" multires=\""),
     Arg(2),
     Text("\" />"),
     Text("\n  </image>"),
     Text("\n</scene>"),
     Text("\n")]

  /** The controller's scene: named "scene_ID", with a view element and the place filter on start. */
  function ControllerSceneBlock(sceneId: string, title: string, subtitle: string, thumb: string, preview: string, cubeUrl: string, multires: string): string
  {
    "\n" + SceneTagText(ControllerSceneAttrs(sceneId, title, subtitle, thumb)) + Render(ControllerSceneBody, [preview, cubeUrl, multires])
  }

  /** The attributes of the pipeline service's scene tag: no onstart and no places attribute. */
  function ServiceSceneAttrs(sceneId: string, title: string, subtitle: string, thumb: string): seq<Attribute>
  {
    [Attribute("name", "scene_" + sceneId), Attribute("title", title), Attribute("subtitle", subtitle), Attribute("thumburl", thumb)]
  }

  /** The elements of the service's scene after its opening tag: no view element. */
  const ServiceSceneBody: seq<Piece> :=
    [Text("\n  <preview url=\""),
     Arg(0),
     Text("\" />"),
     Text("\n  <image>"),
     Text("\n    <cube url=\""),
     Arg(1),
     Text("\" multires=\""),
     Arg(2),
     Text("\" />"),
     Text("\n  </image>"),
     Text("\n</scene>"),
     Text("\n")]

  /** The pipeline service's scene: named "scene_ID", without a view element. */
  function ServiceSceneBlock(sceneId: string, title: string, subtitle: string, thumb: string, preview: string, cubeUrl: string, multires: string): string
  {
    "\n" + SceneTagText(ServiceSceneAttrs(sceneId, title, subtitle, thumb)) + Render(ServiceSceneBody, [preview, cubeUrl, multires])
  }

  const JobMultires := "512,1024,2048"

  /** The folder the tiler writes the panorama's tiles to, under the local vtour folder. */
  function JobTiles(sceneId: string): string
  {
    "panos/" + sceneId + "/vtour/panos/" + sceneId + ".tiles/"
  }

  /** The indentation the job's block carries on each line. */
  const JobIndent := "\n            "

  /** The attributes of the job's scene tag: the bare id as its name, an empty onstart. */
  function JobSceneAttrs(sceneId: string, title: string, subtitle: string): seq<Attribute>
  {
    [Attribute("name", sceneId), Attribute("title", title), Attribute("subtitle", subtitle),
     Attribute("onstart", ""), Attribute("places", title), Attribute("thumburl", JobTiles(sceneId) + "thumb.jpg")]
  }

  /** The job's view element, between line breaks. */
  const JobView := JobIndent + "<view hlookat=\"0\" vlookat=\"0\" fov=\"90\" />" + JobIndent

  /** The job's preview element up to the end of its URL. */
  function JobPreviewOpen(sceneId: string): string
  {
    "<preview url=\"" + JobTiles(sceneId) + "preview.jpg\""
  }

  /** The job's cube element up to the end of its URL pattern. */
  function JobCubeOpen(sceneId: string): string
  {
    "<cube url=\"" + JobTiles(sceneId) + "%s/l%l/%0v_%0h.jpg\""
  }

  const JobImageOpen := JobIndent + "<image>\n                "
  const JobImageClose := " multires=\"" + JobMultires + "\" />" + JobIndent + "</image>" + JobIndent + "</scene>\n"

  /** The job's image element with its cube, and the scene's closing tag. */
  function JobTail(sceneId: string): string
  {
    JobImageOpen + JobCubeOpen(sceneId) + JobImageClose
  }

  /** The elements of the job's scene after its opening tag, and its closing tag. */
  function JobSceneBody(sceneId: string): string
  {
    JobView + (JobPreviewOpen(sceneId) + " />") + JobTail(sceneId)
  }

  /** The panorama job's scene: named by the bare id, all its URLs under panos/ID/vtour/panos/ID.tiles/. */
  function JobSceneBlock(sceneId: string, title: string, subtitle: string): string
  {
    JobIndent + SceneTagText(JobSceneAttrs(sceneId, title, subtitle)) + JobSceneBody(sceneId)
  }

  /** The job's scene tag takes its thumbnail from the tiler's folder for the panorama. */
  lemma JobSceneThumb(sceneId: string, title: string, subtitle: string)
    ensures Contains(JobSceneBlock(sceneId, title, subtitle), AttrChunk(Attribute("thumburl", JobTiles(sceneId) + "thumb.jpg")))
  {
    var attrs := JobSceneAttrs(sceneId, title, subtitle);
    var thumb := Attribute("thumburl", JobTiles(sceneId) + "thumb.jpg");
    var lit := AttrChunk(thumb);
    assert AttrsText(attrs) == AttrsText(attrs[..5]) + lit by {
      assert attrs == attrs[..5] + [thumb];
      AttrsTextSnoc(attrs[..5], thumb);
    }
    ContainsSelf(lit);
    ContainsRight(AttrsText(attrs[..5]), lit, lit);
    ContainsWithin("<scene", AttrsText(attrs), ">", lit);
    ContainsWithin(JobIndent, SceneTagText(attrs), JobSceneBody(sceneId), lit);
  }

  /** The job's scene takes its preview from the tiler's folder for the panorama. */
  lemma JobScenePreview(sceneId: string, title: string, subtitle: string)
    ensures Contains(JobSceneBlock(sceneId, title, subtitle), "<preview url=\"" + JobTiles(sceneId) + "preview.jpg\"")
  {
    var lit := JobPreviewOpen(sceneId);
    ContainsSelf(lit);
    ContainsLeft(lit, " />", lit);
    ContainsWithin(JobView, lit + " />", JobTail(sceneId), lit);
    ContainsRight(JobIndent + SceneTagText(JobSceneAttrs(sceneId, title, subtitle)), JobSceneBody(sceneId), lit);
  }

  /** The job's scene takes its cube faces from the tiler's folder for the panorama. */
  lemma JobSceneCube(sceneId: string, title: string, subtitle: string)
    ensures Contains(JobSceneBlock(sceneId, title, subtitle), "<cube url=\"" + JobTiles(sceneId) + "%s/l%l/%0v_%0h.jpg\"")
  {
    var lit := JobCubeOpen(sceneId);
    ContainsSelf(lit);
    ContainsWithin(JobImageOpen, lit, JobImageClose, lit);
    ContainsRight(JobView + (JobPreviewOpen(sceneId) + " />"), JobTail(sceneId), lit);
    ContainsRight(JobIndent + SceneTagText(JobSceneAttrs(sceneId, title, subtitle)), JobSceneBody(sceneId), lit);
  }

  // ---------------------------------------------------------------------------
  // Layers of the anchored injectors (the same text in the controller and the service,
  // except for the e-mail layer's style)
  // ---------------------------------------------------------------------------

  const ThumbTemplate: seq<Piece> :=
    [Text("\n<layer name=\""),
     Arg(0),
     Text("\" "),
     Text("\n    url=\""),
     Arg(1),
     Text("\" "),
     Text("\n    width.desktop=\"99%\""),
     Text(" width.mobile=\"99%\" width.tablet=\"320\""),
     Text(" height=\"prop\" "),
     Text("\n    bgcolor=\"0xffffff\""),
     Text(" bgroundedge=\"35\" alpha=\"1\" bgalpha=\"1\""),
     Text(" flowspacing=\"5\" "),
     Text("\n    keep=\"true\" scale=\".495\""),
     Text(" isFilterbrgy=\"true\" linkedscene=\"scene_"),
     Arg(2),
     Text("\" "),
     Text("\n    barangay=\""),
     Arg(3),
     Text("\" enabled=\"true\""),
     Text(" onclick=\"navigation();filter_init();\">"),
     Text("\n    <layer type=\"text\" text=\""),
     Arg(4),
     Text("\" width=\"100%\" autoheight=\"true\" "),
     Text("\n        align=\"bottom\""),
     Text(" bgcolor=\"0x000000\" bgalpha=\"0\" "),
     Text("\n        css=\"color:#FFFFFF;"),
     Text(" font-size:300%; font-family:Chewy;"),
     Text(" padding-left:20px;"),
     Text(" text-align:bottom;\"/>"),
     Text("\n</layer>"),
     Text("\n")]

  /** The scene's thumbnail under "topni": linked to scene_ID, filtered by barangay, with a text label. */
  function ThumbLayer(title: string, thumb: string, sceneId: string, barangay: string, caption: string): string
  {
    Render(ThumbTemplate, [title, thumb, sceneId, barangay, caption])
  }

  const MapTemplate: seq<Piece> :=
    [Text("\n    <layer "),
     Text("\n        name=\"iframeLayer_"),
     Arg(0),
     Text("\""),
     Text("\n        type=\"iframe\""),
     Text("\n        iframeurl=\""),
     Arg(1),
     Text("\""),
     Text("\n        width=\"100%\""),
     Text("\n        height=\"100%\""),
     Text("\n        align=\"center\""),
     Text("\n        parent=\"sidemap\""),
     Text("\n        keep=\"true\""),
     Text("\n        places=\""),
     Arg(0),
     Text("\""),
     Text("\n        linkedscene=\"scene_"),
     Arg(2),
     Text("\""),
     Text("\n    />"),
     Text("\n    ")]

  /** The map iframe under "sidemap". */
  function MapLayer(mapSrc: string, title: string, sceneId: string): string
  {
    Render(MapTemplate, [title, mapSrc, sceneId])
  }

  const TitleTemplate: seq<Piece> :=
    [Text("\n    <layer "),
     Text("\n        name=\"Title_text_"),
     Arg(0),
     Text("\""),
     Text("\n        type=\"text\""),
     Text("\n        text=\""),
     Arg(0),
     Text("\""),
     Text("\n        width=\"90%\""),
     Text("\n        height=\"auto\""),
     Text("\n        autoheight=\"true\""),
     Text("\n        enabled=\"false\""),
     Text("\n        align=\"centertop\""),
     Text("\n        bgcolor=\"0x000000\""),
     Text("\n        bgalpha=\"0\""),
     Text("\n        places=\""),
     Arg(0),
     Text("\""),
     Text("\n        linkedscene=\"scene_"),
     Arg(1),
     Text("\""),
     Text("\n        css=\"color:#000000;"),
     Text(" font-size:300%; font-family:Chewy;"),
     Text(" padding-left:0px; text-align:left;\""),
     Text("\n    >"),
     Text("\n </layer>"),
     Text("\n    ")]

  /** The title text under "scrollarea6". */
  function TitleLayer(title: string, sceneId: string): string
  {
    Render(TitleTemplate, [title, sceneId])
  }

  const BarangayTemplate: seq<Piece> :=
    [Text("\n    <layer "),
     Text("\n        name=\"barangay_text_"),
     Arg(0),
     Text("\""),
     Text("\n        type=\"text\""),
     Text("\n        text=\""),
     Arg(0),
     Text("\""),
     Text("\n        width=\"100%\""),
     Text("\n        height=\"100%\""),
     Text("\n        parent=\"forbarangay\""),
     Text("\n        enabled=\"false\""),
     Text("\n        align=\"center\""),
     Text("\n        bgcolor=\"0x000000\""),
     Text("\n        bgalpha=\"0\""),
     Text("\n        places=\""),
     Arg(1),
     Text("\""),
     Text("\n        linkedscene=\"scene_"),
     Arg(2),
     Text("\""),
     Text("\n        css=\"color:#000000;"),
     Text(" font-size:150%; font-family:Chewy;"),
     Text(" text-align:left;\""),
     Text("\n    />")]

  /** The barangay text under "forbarangay". */
  function BarangayLayer(barangay: string, title: string, sceneId: string): string
  {
    Render(BarangayTemplate, [barangay, title, sceneId])
  }

  const CategoryTemplate: seq<Piece> :=
    [Text("\n    <layer "),
     Text("\n        name=\"category_text_"),
     Arg(0),
     Text("\""),
     Text("\n        type=\"text\""),
     Text("\n        text=\""),
     Arg(1),
     Text("\""),
     Text("\n        width=\"100%\""),
     Text("\n        height=\"100%\""),
     Text("\n        parent=\"forcat\""),
     Text("\n        enabled=\"false\""),
     Text("\n        align=\"center\""),
     Text("\n        bgcolor=\"0x000000\""),
     Text("\n        bgalpha=\"0\""),
     Text("\n        places=\""),
     Arg(0),
     Text("\""),
     Text("\n        linkedscene=\"scene_"),
     Arg(2),
     Text("\""),
     Text("\n        css=\"color:#000000;"),
     Text(" font-size:150%; font-family:Chewy;"),
     Text(" text-align:left;\""),
     Text("\n    />")]

  /** The category text under "forcat". */
  function CategoryLayer(category: string, title: string, sceneId: string): string
  {
    Render(CategoryTemplate, [title, category, sceneId])
  }

  const DetailsTemplate: seq<Piece> :=
    [Text("\n    <layer "),
     Text("\n        name=\"details_text_"),
     Arg(0),
     Text("\""),
     Text("\n        type=\"text\""),
     Text("\n        text=\""),
     Arg(1),
     Text("\""),
     Text("\n        width=\"100%\""),
     Text("\n        height=\"auto\""),
     Text("\n        parent=\"scrollarea5\""),
     Text("\n        enabled=\"false\""),
     Text("\n        align=\"centertop\""),
     Text("\n        bgcolor=\"0x000000\""),
     Text("\n        bgalpha=\"0\""),
     Text("\n       "),
     Text(" css=\"font-family:Chewy;color:#000000;"),
     Text(" font-size:150%; text-align:left;\""),
     Text("\n        places=\""),
     Arg(0),
     Text("\""),
     Text("\n        linkedscene=\"scene_"),
     Arg(2),
     Text("\""),
     Text("\n    />")]

  /** The address text under "scrollarea5". */
  function DetailsLayer(address: string, title: string, sceneId: string): string
  {
    Render(DetailsTemplate, [title, address, sceneId])
  }

  const PhoneTemplate: seq<Piece> :=
    [Text("\n    <layer "),
     Text("\n        name=\"number_text_"),
     Arg(0),
     Text("\""),
     Text("\n        type=\"text\""),
     Text("\n        text=\""),
     Arg(1),
     Text("\""),
     Text("\n        width=\"100%\""),
     Text("\n        height=\"100%\""),
     Text("\n        enabled=\"false\""),
     Text("\n        parent=\"forphone\""),
     Text("\n        align=\"center\""),
     Text("\n        bgcolor=\"0x000000\""),
     Text("\n        bgalpha=\"0\""),
     Text("\n        css=\"font-family:Chewy;"),
     Text(" color:#000000; font-size:150%;"),
     Text(" text-align:left;\""),
     Text("\n        places=\""),
     Arg(0),
     Text("\""),
     Text("\n        linkedscene=\"scene_"),
     Arg(2),
     Text("\""),
     Text("\n    />")]

  /** The contact number under "forphone". */
  function PhoneLayer(phone: string, title: string, sceneId: string): string
  {
    Render(PhoneTemplate, [title, phone, sceneId])
  }

  function EmailTemplate(wrap: bool): seq<Piece>
  {
    [Text("\n    <layer "),
     Text("\n        name=\"email_text_"),
     Arg(0),
     Text("\""),
     Text("\n        type=\"text\""),
     Text("\n        text=\""),
     Arg(1),
     Text("\""),
     Text("\n        width=\"100%\""),
     Text("\n        height=\"100%\""),
     Text("\n        enabled=\"false\""),
     Text("\n        parent=\"formail\""),
     Text("\n        align=\"center\""),
     Text("\n        bgcolor=\"0x000000\""),
     Text("\n        bgalpha=\"0\""),
     Text("\n        css=\"font-family:Chewy;"),
     Text(" color:#000000; font-size:150%;"),
     Text(" text-align:left;"),
     Text(if wrap then " word-wrap:break-word;" else ""),
     Text(if wrap then " overflow-wrap:break-word;" else ""),
     Text(if wrap then " white-space:normal;" else ""),
     Text("\""),
     Text("\n        places=\""),
     Arg(0),
     Text("\""),
     Text("\n        linkedscene=\"scene_"),
     Arg(2),
     Text("\""),
     Text("\n    />")]
  }

  /** The e-mail text under "formail"; the service's style also wraps long addresses. */
  function EmailLayer(email: string, title: string, sceneId: string, wrap: bool): string
  {
    Render(EmailTemplate(wrap), [title, email, sceneId])
  }

  const WebsiteTemplate: seq<Piece> :=
    [Text("\n    <layer "),
     Text("\n        name=\"website_text_"),
     Arg(0),
     Text("\""),
     Text("\n        url=\"skin/browse.png\""),
     Text("\n        width=\"prop\""),
     Text("\n        height=\"100%\""),
     Text("\n        parent=\"forwebsite\""),
     Text("\n        enabled=\"true\""),
     Text("\n        css=\"font-family:Chewy;"),
     Text(" color:#000000; font-size:150%;"),
     Text(" text-align:left;\""),
     Text("\n        places=\""),
     Arg(1),
     Text("\""),
     Text("\n        linkedscene=\"scene_"),
     Arg(2),
     Text("\""),
     Text("\n        onclick=\"openurl(\'"),
     Arg(0),
     Text("\')\""),
     Text("\n    />")]

  /** The website button under "forwebsite". */
  function WebsiteLayer(website: string, title: string, sceneId: string): string
  {
    Render(WebsiteTemplate, [website, title, sceneId])
  }

  const FacebookTemplate: seq<Piece> :=
    [Text("\n    <layer "),
     Text("\n        name=\"facebook_text_"),
     Arg(0),
     Text("\""),
     Text("\n        url=\"skin/fb.png\""),
     Text("\n        width=\"prop\""),
     Text("\n        height=\"100%\""),
     Text("\n        parent=\"forfb\""),
     Text("\n        enabled=\"true\""),
     Text("\n        css=\"font-family:Chewy;"),
     Text(" color:#000000; font-size:150%;"),
     Text(" text-align:left;\""),
     Text("\n        places=\""),
     Arg(1),
     Text("\""),
     Text("\n        linkedscene=\"scene_"),
     Arg(2),
     Text("\""),
     Text("\n        onclick=\"openurl(\'"),
     Arg(0),
     Text("\')\""),
     Text("\n    />")]

  /** The Facebook button under "forfb". */
  function FacebookLayer(facebook: string, title: string, sceneId: string): string
  {
    Render(FacebookTemplate, [facebook, title, sceneId])
  }

  const InstagramTemplate: seq<Piece> :=
    [Text("\n    <layer "),
     Text("\n        name=\"instagram_text_"),
     Arg(0),
     Text("\""),
     Text("\n        url=\"skin/insta.png\""),
     Text("\n        width=\"prop\""),
     Text("\n        height=\"100%\""),
     Text("\n        parent=\"forinsta\""),
     Text("\n        enabled=\"true\""),
     Text("\n        css=\"font-family:Chewy;"),
     Text(" color:#000000; font-size:150%;"),
     Text(" text-align:left;\""),
     Text("\n        places=\""),
     Arg(1),
     Text("\""),
     Text("\n        linkedscene=\"scene_"),
     Arg(2),
     Text("\""),
     Text("\n        onclick=\"openurl(\'"),
     Arg(0),
     Text("\')\""),
     Text("\n    />")]

  /** The Instagram button under "forinsta". */
  function InstagramLayer(instagram: string, title: string, sceneId: string): string
  {
    Render(InstagramTemplate, [instagram, title, sceneId])
  }

  const TiktokTemplate: seq<Piece> :=
    [Text("\n    <layer "),
     Text("\n        name=\"tiktok_text_"),
     Arg(0),
     Text("\""),
     Text("\n        url=\"skin/tiktok.png\""),
     Text("\n        width=\"prop\""),
     Text("\n        height=\"100%\""),
     Text("\n        parent=\"fortiktok\""),
     Text("\n        enabled=\"true\""),
     Text("\n        css=\"font-family:Chewy;"),
     Text(" color:#000000; font-size:150%;"),
     Text(" text-align:left;\""),
     Text("\n        places=\""),
     Arg(1),
     Text("\""),
     Text("\n        linkedscene=\"scene_"),
     Arg(2),
     Text("\""),
     Text("\n        onclick=\"openurl(\'"),
     Arg(0),
     Text("\')\""),
     Text("\n    />")]

  /** The TikTok button under "fortiktok". */
  function TiktokLayer(tiktok: string, title: string, sceneId: string): string
  {
    Render(TiktokTemplate, [tiktok, title, sceneId])
  }
}
