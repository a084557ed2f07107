/**
 * The edits the controller and the pipeline service make to a municipality's
 * tour document when a scene is added: the scene block put in front of
 * `</krpano>`, and the layers put right after an anchor layer's opening tag.
 * Each is a pure function from the loaded document to the one saved back.
 */
module Splices {
  import opened Text
  import opened Markup
  import opened Patterns
  import opened Blocks
  import Naming

  const KrpanoClose: string := "</krpano>"

  // ---------------------------------------------------------------------------
  // The scene block before </krpano>
  // ---------------------------------------------------------------------------

  /** str_replace('</krpano>', block . '</krpano>', doc). */
  function InsertBeforeClose(doc: string, block: string): string
  {
    ReplaceAll(doc, KrpanoClose, block + KrpanoClose)
  }

  /**
   * Cutting the document at its closing tags: the pieces between them are
   * kept as they were, and the block goes in front of every closing tag.
   */
  lemma InsertBeforeEveryClose(doc: string, block: string)
    ensures Join(Split(doc, KrpanoClose), KrpanoClose) == doc
    ensures InsertBeforeClose(doc, block) == Join(Split(doc, KrpanoClose), block + KrpanoClose)
    ensures forall i :: 0 <= i < |Split(doc, KrpanoClose)| ==> !Contains(Split(doc, KrpanoClose)[i], KrpanoClose)
  {
    ReplaceAllIsJoin(doc, KrpanoClose, block + KrpanoClose);
  }

  /** Without a closing tag the document comes back as it was. */
  lemma InsertWithoutClose(doc: string, block: string)
    requires !Contains(doc, KrpanoClose)
    ensures InsertBeforeClose(doc, block) == doc
  {
    ReplaceAllAbsent(doc, KrpanoClose, block + KrpanoClose);
  }

  /** A document with one closing tag at index k gets the block at k and nothing else. */
  lemma InsertBeforeOnlyClose(doc: string, block: string, k: nat)
    requires Find(doc, KrpanoClose, 0, false).Some? && Find(doc, KrpanoClose, 0, false).value == k
    requires !Contains(doc[k + |KrpanoClose|..], KrpanoClose)
    ensures InsertBeforeClose(doc, block) == doc[..k] + block + doc[k..]
  {
    var rep := block + KrpanoClose;
    ReplaceAllAtFirst(doc, KrpanoClose, rep, k);
    var tail := doc[k + |KrpanoClose|..];
    ReplaceAllAbsent(tail, KrpanoClose, rep);
    assert doc[k..] == KrpanoClose + tail;
    assert doc[..k] + rep + tail == doc[..k] + block + (KrpanoClose + tail);
  }

  // ---------------------------------------------------------------------------
  // Layers after an anchor's opening tag
  // ---------------------------------------------------------------------------

  /** The first opening tag `<layer ... name="NAME" ...>` of the document: where it starts and its length. */
  function AnchorTag(doc: string, name: string): (a: Option<(nat, nat)>)
    ensures a.Some? ==> a.value.0 + a.value.1 <= |doc| && MatchLen(Anchor(name), doc[a.value.0..]).Some? && MatchLen(Anchor(name), doc[a.value.0..]).value == a.value.1
    ensures a.Some? ==> FirstMatch(Anchor(name), doc, 0).Some? && FirstMatch(Anchor(name), doc, 0).value == a.value.0
    ensures a.None? ==> FirstMatch(Anchor(name), doc, 0).None?
  {
    match FirstMatch(Anchor(name), doc, 0)
    case None => None
    case Some(k) => Some((k, MatchLen(Anchor(name), doc[k..]).value))
  }

  /**
   * The injection as evidently intended: the layer goes on the line after the
   * first anchor tag; without an anchor the document is kept.
   */
  function InjectAfterAnchor(doc: string, name: string, layer: string): (r: string)
    ensures AnchorTag(doc, name).None? ==> r == doc
  {
    var a := AnchorTag(doc, name);
    if a.None? then doc
    else doc[..a.value.0 + a.value.1] + "\n" + layer + doc[a.value.0 + a.value.1..]
  }

  /**
   * The intended injection is preg_replace(anchor, tag . "\n" . layer, doc, 1)
   * with its replacement copied literally.
   */
  lemma InjectIsLiteralRewrite(doc: string, name: string, layer: string, k: nat, n: nat)
    requires AnchorTag(doc, name).Some? && AnchorTag(doc, name).value == (k, n)
    ensures k + n <= |doc|
    ensures InjectAfterAnchor(doc, name, layer) == RewriteFirst(Anchor(name), doc, Literal(doc[k..k + n] + "\n" + layer))
  {
    var text := doc[k..k + n] + "\n" + layer;
    var rest := doc[k + n..];
    InjectAt(doc, name, layer, k, n);
    RewriteFirstLiteral(Anchor(name), doc, text, k, k + n);
    ConcatAtTag(doc, k, n, layer, rest);
  }

  /**
   * The injection as the source writes it: preg_replace(anchor, tag . "\n" .
   * layer, doc, 1) reads its replacement as a template, so a `$1`, `\1` or `\\`
   * in the tag or the layer (a form value, say) is expanded rather than copied.
   * Written here as the splice it performs; AsWrittenIsTemplateRewrite ties it
   * to the replacement of the first anchor match.
   */
  function InjectAfterAnchorAsWritten(doc: string, name: string, layer: string): (r: string)
    ensures AnchorTag(doc, name).None? ==> r == doc
  {
    var a := AnchorTag(doc, name);
    if a.None? then doc else ExpandAfterTag(doc, name, a.value.0, a.value.1, layer)
  }

  /** The tag at k, n long, and the layer after it, read as a replacement template. */
  function ExpandAfterTag(doc: string, name: string, k: nat, n: nat, layer: string): string
    requires k + n <= |doc|
  {
    doc[..k] + Expand(doc[k..k + n] + "\n" + layer, Groups(Anchor(name), doc[k..k + n])) + doc[k + n..]
  }

  /** The source's preg_replace call, with the template read as PHP reads it. */
  lemma AsWrittenIsTemplateRewrite(doc: string, name: string, layer: string, k: nat, n: nat)
    requires AnchorTag(doc, name).Some? && AnchorTag(doc, name).value == (k, n)
    ensures k + n <= |doc|
    ensures InjectAfterAnchorAsWritten(doc, name, layer) == RewriteFirst(Anchor(name), doc, Template(doc[k..k + n] + "\n" + layer))
  {
    AsWrittenAt(doc, name, layer, k, n);
    RewriteFirstTemplate(Anchor(name), doc, doc[k..k + n] + "\n" + layer, k, n);
  }

  /** The injection as written, in terms of the anchor tag's position. */
  lemma AsWrittenAt(doc: string, name: string, layer: string, k: nat, n: nat)
    requires AnchorTag(doc, name).Some? && AnchorTag(doc, name).value == (k, n)
    ensures k + n <= |doc|
    ensures InjectAfterAnchorAsWritten(doc, name, layer)
              == doc[..k] + Expand(doc[k..k + n] + "\n" + layer, Groups(Anchor(name), doc[k..k + n])) + doc[k + n..]
  {
    assert InjectAfterAnchorAsWritten(doc, name, layer) == ExpandAfterTag(doc, name, k, n, layer);
  }

  /** Text PHP's replacement strings copy as it is. */
  predicate Plain(s: string)
  {
    forall i :: 0 <= i < |s| ==> s[i] != '\\' && s[i] != '$'
  }

  /** On a tag and a layer without backslashes or dollar signs, the two readings agree. */
  lemma AsWrittenAgreesOnPlainText(doc: string, name: string, layer: string)
    requires AnchorTag(doc, name).Some? ==>
               Plain(doc[AnchorTag(doc, name).value.0..AnchorTag(doc, name).value.0 + AnchorTag(doc, name).value.1])
    requires Plain(layer)
    ensures InjectAfterAnchorAsWritten(doc, name, layer) == InjectAfterAnchor(doc, name, layer)
  {
    if AnchorTag(doc, name).Some? {
      AgreeAt(doc, name, layer, AnchorTag(doc, name).value.0, AnchorTag(doc, name).value.1);
    }
  }

  lemma AgreeAt(doc: string, name: string, layer: string, k: nat, n: nat)
    requires AnchorTag(doc, name).Some? && AnchorTag(doc, name).value == (k, n)
    requires Plain(doc[k..k + n]) && Plain(layer)
    ensures InjectAfterAnchorAsWritten(doc, name, layer) == InjectAfterAnchor(doc, name, layer)
  {
    var text := doc[k..k + n] + "\n" + layer;
    assert Plain(text) by {
      PlainConcat(doc[k..k + n], "\n");
      PlainConcat(doc[k..k + n] + "\n", layer);
    }
    assert InjectAfterAnchorAsWritten(doc, name, layer) == doc[..k] + text + doc[k + n..] by {
      AsWrittenAt(doc, name, layer, k, n);
      ExpandPlain(text, Groups(Anchor(name), doc[k..k + n]));
    }
    InjectAt(doc, name, layer, k, n);
    ConcatAtTag(doc, k, n, layer, doc[k + n..]);
  }

  /**
   * A layer carrying `$1` (a business called "Save $1 today", say) gets the
   * anchor's opening tag pasted in its place when written as the source does.
   */
  lemma AsWrittenExpandsDollarOne(doc: string, name: string, x: string, y: string, k: nat, n: nat)
    requires AnchorTag(doc, name).Some? && AnchorTag(doc, name).value == (k, n)
    requires Plain(doc[k..k + n]) && Plain(x) && Plain(y)
    requires y == [] || !IsDigit(y[0])
    ensures InjectAfterAnchorAsWritten(doc, name, x + "$1" + y) == doc[..k + n] + ("\n" + x + doc[k..k + n] + y) + doc[k + n..]
  {
    var tag := doc[k..k + n];
    AsWrittenAt(doc, name, x + "$1" + y, k, n);
    ExpandDollarOne(tag, x, y, Groups(Anchor(name), tag));
    PasteAt(doc, k, n, "\n" + x + tag + y);
  }

  lemma ExpandDollarOne(tag: string, x: string, y: string, g: seq<string>)
    requires Plain(tag) && Plain(x) && Plain(y) && |g| >= 2 && g[1] == tag
    requires y == [] || !IsDigit(y[0])
    ensures Expand(tag + "\n" + (x + "$1" + y), g) == tag + ("\n" + x + tag + y)
  {
    var pre := tag + "\n" + x;
    PlainConcat(tag, "\n");
    PlainConcat(tag + "\n", x);
    Regroup(tag + "\n", x, "$1", y);
    ExpandAfterPlain(pre, "$1" + y, g);
    DollarOneThenPlain(y, g);
    Regroup2(tag, x, y);
  }

  lemma DollarOneThenPlain(y: string, g: seq<string>)
    requires Plain(y) && |g| >= 2
    requires y == [] || !IsDigit(y[0])
    ensures Expand("$1" + y, g) == g[1] + y
  {
    ExpandGroupOne(y, g);
    ExpandPlain(y, g);
  }

  lemma Regroup2(tag: string, x: string, y: string)
    ensures tag + "\n" + x + (tag + y) == tag + ("\n" + x + tag + y)
  {
  }

  lemma PlainConcat(a: string, b: string)
    requires Plain(a) && Plain(b)
    ensures Plain(a + b)
  {
    assert forall i :: 0 <= i < |b| ==> (a + b)[|a| + i] == b[i];
  }

  lemma Regroup(a: string, x: string, d: string, y: string)
    ensures a + (x + d + y) == (a + x) + (d + y)
  {
  }

  lemma PasteAt(doc: string, k: nat, n: nat, rest: string)
    requires k + n <= |doc|
    ensures doc[..k] + (doc[k..k + n] + rest) + doc[k + n..] == doc[..k + n] + rest + doc[k + n..]
  {
    assert doc[..k] + doc[k..k + n] == doc[..k + n];
  }

  /**
   * appendTitle's str_replace($openingTag, $openingTag . "\n" . layer, doc):
   * every copy of the first anchor tag's exact text gets the layer.
   */
  function InsertAfterEveryTag(doc: string, name: string, layer: string): (r: string)
    ensures AnchorTag(doc, name).None? ==> r == doc
  {
    var a := AnchorTag(doc, name);
    if a.None? then doc
    else
      var tag := doc[a.value.0..a.value.0 + a.value.1];
      ReplaceAll(doc, tag, tag + "\n" + layer)
  }

  /** Any exact copy of an anchor tag's text is itself a match of the anchor pattern. */
  lemma CopyOfAnchorTag(doc: string, name: string, k: nat, n: nat, j: nat)
    requires k + n <= |doc| && MatchLen(Anchor(name), doc[k..]).Some? && MatchLen(Anchor(name), doc[k..]).value == n
    ensures j + n <= |doc| && doc[j..j + n] == doc[k..k + n] ==> MatchesAt(Anchor(name), doc, j)
  {
    if j + n <= |doc| && doc[j..j + n] == doc[k..k + n] {
      AnchorEndsAtFirstClose(name, doc[k..], n);
      assert doc[k..][..n] == doc[k..k + n];
      assert doc[j..][..n] == doc[j..j + n];
      AnchorIsLocal(name, doc[k..], doc[j..], n);
    }
  }

  /**
   * appendTitle's replacement meets the first anchor tag first: the text
   * before it is kept, the layer follows it, and every later copy of the same
   * tag text gets the layer too; the text between copies is kept.
   */
  lemma InsertAfterEveryTagFirst(doc: string, name: string, layer: string, k: nat, n: nat)
    requires AnchorTag(doc, name).Some? && AnchorTag(doc, name).value == (k, n)
    ensures var tag := doc[k..k + n];
            && InsertAfterEveryTag(doc, name, layer)
                 == doc[..k + n] + "\n" + layer + ReplaceAll(doc[k + n..], tag, tag + "\n" + layer)
            && InsertAfterEveryTag(doc, name, layer) == Join(Split(doc, tag), tag + "\n" + layer)
            && Join(Split(doc, tag), tag) == doc
  {
    var tag := doc[k..k + n];
    var rep := tag + "\n" + layer;
    assert InsertAfterEveryTag(doc, name, layer) == ReplaceAll(doc, tag, rep);
    assert ReplaceAll(doc, tag, rep) == doc[..k] + rep + ReplaceAll(doc[k + n..], tag, rep) by {
      FirstCopyIsAnchor(doc, name, k, n);
      ReplaceAllAtFirst(doc, tag, rep, k);
    }
    ConcatAtTag(doc, k, n, layer, ReplaceAll(doc[k + n..], tag, rep));
    ReplaceAllIsJoin(doc, tag, rep);
  }

  lemma ConcatAtTag(doc: string, k: nat, n: nat, layer: string, rest: string)
    requires k + n <= |doc|
    ensures doc[..k] + (doc[k..k + n] + "\n" + layer) + rest == doc[..k + n] + "\n" + layer + rest
  {
    assert doc[..k] + doc[k..k + n] == doc[..k + n];
  }

  /** The leftmost copy of the first anchor tag's text is that tag. */
  lemma FirstCopyIsAnchor(doc: string, name: string, k: nat, n: nat)
    requires AnchorTag(doc, name).Some? && AnchorTag(doc, name).value == (k, n)
    ensures Find(doc, doc[k..k + n], 0, false).Some? && Find(doc, doc[k..k + n], 0, false).value == k
  {
    var tag := doc[k..k + n];
    forall j | 0 <= j < k ensures !LitAt(doc, j, tag, false) {
      CopyOfAnchorTag(doc, name, k, n, j);
    }
    FindIs(doc, tag, 0, false, k);
  }

  /** Text that agrees with the document up to the end of its first anchor tag still has that tag first. */
  lemma AnchorTagKept(doc: string, doc': string, name: string, k: nat, n: nat)
    requires AnchorTag(doc, name).Some? && AnchorTag(doc, name).value == (k, n)
    requires k + n <= |doc'| && doc'[..k + n] == doc[..k + n]
    ensures AnchorTag(doc', name).Some? && AnchorTag(doc', name).value == (k, n)
  {
    AnchorEndsAtFirstClose(name, doc[k..], n);
    assert doc[k..][..n] == doc'[k..][..n];
    AnchorIsLocal(name, doc[k..], doc'[k..], n);
    forall j | 0 <= j < k ensures !MatchesAt(Anchor(name), doc', j) {
      NoEarlierAnchor(doc, doc', name, k, n, j);
    }
    FirstMatchIs(Anchor(name), doc', 0, k);
  }

  lemma NoEarlierAnchor(doc: string, doc': string, name: string, k: nat, n: nat, j: nat)
    requires AnchorTag(doc, name).Some? && AnchorTag(doc, name).value == (k, n) && j < k
    requires k + n <= |doc'| && doc'[..k + n] == doc[..k + n]
    ensures !MatchesAt(Anchor(name), doc', j)
  {
    var t, t' := doc[j..], doc'[j..];
    assert !MatchesAt(Anchor(name), doc, j);
    AnchorEndsAtFirstClose(name, doc[k..], n);
    assert t[k + n - 1 - j] == '>';
    assert IndexOf(t, '>', 6).Some? && IndexOf(t, '>', 6).value < k + n - j;
    assert t[..k + n - j] == t'[..k + n - j];
    AnchorIsLocal(name, t, t', k + n - j);
  }

  /** The injection in terms of the anchor tag's position. */
  lemma InjectAt(doc: string, name: string, layer: string, k: nat, n: nat)
    requires AnchorTag(doc, name).Some? && AnchorTag(doc, name).value == (k, n)
    ensures InjectAfterAnchor(doc, name, layer) == doc[..k + n] + "\n" + layer + doc[k + n..]
  {
  }

  /**
   * Two injections under the same anchor stack up: both land right after the
   * anchor tag, the later one first.
   */
  lemma InjectionsStack(doc: string, name: string, first: string, second: string, k: nat, n: nat)
    requires AnchorTag(doc, name).Some? && AnchorTag(doc, name).value == (k, n)
    ensures InjectAfterAnchor(InjectAfterAnchor(doc, name, first), name, second)
              == doc[..k + n] + "\n" + second + "\n" + first + doc[k + n..]
  {
    var once := InjectAfterAnchor(doc, name, first);
    var tail := doc[k + n..];
    assert once == doc[..k + n] + ("\n" + first + tail) by {
      InjectAt(doc, name, first, k, n);
    }
    assert once[..k + n] == doc[..k + n] && once[k + n..] == "\n" + first + tail by {
      SplitAfterTag(doc[..k + n], "\n" + first + tail);
    }
    assert AnchorTag(once, name).Some? && AnchorTag(once, name).value == (k, n) by {
      AnchorTagKept(doc, once, name, k, n);
    }
    assert InjectAfterAnchor(once, name, second) == doc[..k + n] + "\n" + second + ("\n" + first + tail) by {
      InjectAt(once, name, second, k, n);
    }
  }

  lemma SplitAfterTag(a: string, b: string)
    ensures (a + b)[..|a|] == a && (a + b)[|a|..] == b
  {
  }

  // ---------------------------------------------------------------------------
  // The injectors
  // ---------------------------------------------------------------------------

  /** The copy of the editor that runs: the controller or the pipeline service. */
  datatype Site = Controller | Service

  /** The thumbnail's caption: upper case in the controller, first letter capitalised in the service. */
  function Caption(site: Site, title: string): string
  {
    match site
    case Controller => ControllerLabel(title)
    case Service => ServiceLabel(title)
  }

  /** The form fields the detail injectors write, each under its own anchor layer. */
  datatype Detail = Barangay | Category | Address | Phone | Email | Website | Facebook | Instagram | Tiktok

  function DetailAnchor(d: Detail): string
  {
    match d
    case Barangay => "forbarangay"
    case Category => "forcat"
    case Address => "scrollarea5"
    case Phone => "forphone"
    case Email => "formail"
    case Website => "forwebsite"
    case Facebook => "forfb"
    case Instagram => "forinsta"
    case Tiktok => "fortiktok"
  }

  function DetailLayer(site: Site, d: Detail, value: string, title: string, sceneId: string): string
  {
    match d
    case Barangay => BarangayLayer(value, title, sceneId)
    case Category => CategoryLayer(value, title, sceneId)
    case Address => DetailsLayer(value, title, sceneId)
    case Phone => PhoneLayer(value, title, sceneId)
    case Email => EmailLayer(value, title, sceneId, site == Service)
    case Website => WebsiteLayer(value, title, sceneId)
    case Facebook => FacebookLayer(value, title, sceneId)
    case Instagram => InstagramLayer(value, title, sceneId)
    case Tiktok => TiktokLayer(value, title, sceneId)
  }

  /** PHP's `!$value` on a form field that defaults to the empty string. */
  predicate Blank(value: string)
  {
    Naming.IsFalsy(Some(value))
  }

  /** appendLayerToXml: the thumbnail under "topni"; it runs whatever the field values. */
  function InjectThumb(site: Site, doc: string, sceneId: string, title: string, barangay: string, thumb: string): (r: string)
    ensures AnchorTag(doc, "topni").None? ==> r == doc
    ensures AnchorTag(doc, "topni").Some? ==>
              var k, n := AnchorTag(doc, "topni").value.0, AnchorTag(doc, "topni").value.1;
              r == doc[..k + n] + "\n" + ThumbLayer(HtmlSpecialChars(title), thumb, sceneId, barangay, Caption(site, title)) + doc[k + n..]
  {
    InjectAfterAnchor(doc, "topni", ThumbLayer(HtmlSpecialChars(title), thumb, sceneId, barangay, Caption(site, title)))
  }

  /** appendMapToSideMapLayerXml: the map iframe under "sidemap", skipped without a link. */
  function InjectMap(doc: string, mapSrc: Option<string>, title: string, sceneId: string): (r: string)
    ensures Naming.IsFalsy(mapSrc) || AnchorTag(doc, "sidemap").None? ==> r == doc
    ensures !Naming.IsFalsy(mapSrc) && AnchorTag(doc, "sidemap").Some? ==>
              var k, n := AnchorTag(doc, "sidemap").value.0, AnchorTag(doc, "sidemap").value.1;
              r == doc[..k + n] + "\n" + MapLayer(mapSrc.value, HtmlSpecialChars(title), sceneId) + doc[k + n..]
  {
    if Naming.IsFalsy(mapSrc) then doc
    else InjectAfterAnchor(doc, "sidemap", MapLayer(mapSrc.value, HtmlSpecialChars(title), sceneId))
  }

  /** appendTitle: the title under every copy of the "scrollarea6" tag, skipped on a blank title. */
  function InjectTitle(doc: string, title: string, sceneId: string): (r: string)
    ensures Blank(title) || AnchorTag(doc, "scrollarea6").None? ==> r == doc
  {
    if Blank(title) then doc
    else InsertAfterEveryTag(doc, "scrollarea6", TitleLayer(HtmlSpecialChars(title), sceneId))
  }

  /** The append helpers of the details: skipped on a blank value, otherwise value and title escaped and the layer injected. */
  function InjectDetail(site: Site, doc: string, d: Detail, value: string, title: string, sceneId: string): (r: string)
    ensures Blank(value) || AnchorTag(doc, DetailAnchor(d)).None? ==> r == doc
    ensures !Blank(value) && AnchorTag(doc, DetailAnchor(d)).Some? ==>
              var k, n := AnchorTag(doc, DetailAnchor(d)).value.0, AnchorTag(doc, DetailAnchor(d)).value.1;
              r == doc[..k + n] + "\n" + DetailLayer(site, d, HtmlSpecialChars(value), HtmlSpecialChars(title), sceneId) + doc[k + n..]
  {
    if Blank(value) then doc
    else InjectAfterAnchor(doc, DetailAnchor(d), DetailLayer(site, d, HtmlSpecialChars(value), HtmlSpecialChars(title), sceneId))
  }

  /** The validated form of a new scene; an absent optional field is the empty string, an absent map link None. */
  datatype SceneForm = SceneForm(
    title: string, location: string, barangay: string, category: string, address: string,
    contactNumber: string, email: string, website: string, facebook: string, instagram: string,
    tiktok: string, mapSrc: Option<string>)

  function DetailValue(f: SceneForm, d: Detail): string
  {
    match d
    case Barangay => f.barangay
    case Category => f.category
    case Address => f.address
    case Phone => f.contactNumber
    case Email => f.email
    case Website => f.website
    case Facebook => f.facebook
    case Instagram => f.instagram
    case Tiktok => f.tiktok
  }

  /** One of the injections appendSceneToXml runs after saving the scene block. */
  datatype Step = ThumbStep | MapStep | TitleStep | DetailStep(d: Detail)

  /** The injections in the order appendSceneToXml runs them. */
  const Steps: seq<Step> :=
    [ThumbStep, MapStep, TitleStep, DetailStep(Barangay), DetailStep(Category), DetailStep(Address),
     DetailStep(Phone), DetailStep(Email), DetailStep(Website), DetailStep(Facebook),
     DetailStep(Instagram), DetailStep(Tiktok)]

  /** The anchor layer a step writes under. */
  function StepAnchor(step: Step): string
  {
    match step
    case ThumbStep => "topni"
    case MapStep => "sidemap"
    case TitleStep => "scrollarea6"
    case DetailStep(d) => DetailAnchor(d)
  }

  /** One injection on the document the previous one saved. */
  function Inject(site: Site, doc: string, f: SceneForm, sceneId: string, thumb: string, step: Step): (r: string)
    ensures AnchorTag(doc, StepAnchor(step)).None? ==> r == doc
  {
    match step
    case ThumbStep => InjectThumb(site, doc, sceneId, f.title, f.barangay, thumb)
    case MapStep => InjectMap(doc, f.mapSrc, f.title, sceneId)
    case TitleStep => InjectTitle(doc, f.title, sceneId)
    case DetailStep(d) => InjectDetail(site, doc, d, DetailValue(f, d), f.title, sceneId)
  }

  /** When an injector returns early: a blank value (the map link falsy), or no anchor tag. */
  predicate Skips(doc: string, f: SceneForm, step: Step)
  {
    match step
    case ThumbStep => AnchorTag(doc, "topni").None?
    case MapStep => Naming.IsFalsy(f.mapSrc) || AnchorTag(doc, "sidemap").None?
    case TitleStep => Blank(f.title) || AnchorTag(doc, "scrollarea6").None?
    case DetailStep(d) => Blank(DetailValue(f, d)) || AnchorTag(doc, DetailAnchor(d)).None?
  }

  /** An injector that returns early leaves the document as the injection would. */
  lemma SkipKeepsDocument(site: Site, doc: string, f: SceneForm, sceneId: string, thumb: string, step: Step)
    requires Skips(doc, f, step)
    ensures Inject(site, doc, f, sceneId, thumb, step) == doc
  {
  }

  /** The steps in order, each working on the previous one's output. */
  function RunSteps(site: Site, doc: string, f: SceneForm, sceneId: string, thumb: string, steps: seq<Step>): string
    decreases |steps|
  {
    if steps == [] then doc
    else RunSteps(site, Inject(site, doc, f, sceneId, thumb, steps[0]), f, sceneId, thumb, steps[1..])
  }

  /** The twelve injections appendSceneToXml runs after the scene block is saved. */
  function Injections(site: Site, doc: string, f: SceneForm, sceneId: string, thumb: string): string
  {
    RunSteps(site, doc, f, sceneId, thumb, Steps)
  }

  /** Running one more step runs it on what the earlier steps left. */
  lemma {:induction false} RunStepsSnoc(site: Site, doc: string, f: SceneForm, sceneId: string, thumb: string, steps: seq<Step>, last: Step)
    ensures RunSteps(site, doc, f, sceneId, thumb, steps + [last]) ==
            Inject(site, RunSteps(site, doc, f, sceneId, thumb, steps), f, sceneId, thumb, last)
    decreases |steps|
  {
    if steps == [] {
      assert steps + [last] == [last];
    } else {
      assert (steps + [last])[1..] == steps[1..] + [last];
      RunStepsSnoc(site, Inject(site, doc, f, sceneId, thumb, steps[0]), f, sceneId, thumb, steps[1..], last);
    }
  }

  /** The first i + 1 injections are the first i followed by injection i. */
  lemma RunStepsNext(site: Site, doc: string, f: SceneForm, sceneId: string, thumb: string, i: nat)
    requires i < |Steps|
    ensures RunSteps(site, doc, f, sceneId, thumb, Steps[..i + 1]) ==
            Inject(site, RunSteps(site, doc, f, sceneId, thumb, Steps[..i]), f, sceneId, thumb, Steps[i])
  {
    assert Steps[..i + 1] == Steps[..i] + [Steps[i]];
    RunStepsSnoc(site, doc, f, sceneId, thumb, Steps[..i], Steps[i]);
  }

  /** A document without the anchors of the steps comes through them unchanged. */
  lemma {:induction false} StepsWithoutAnchors(site: Site, doc: string, f: SceneForm, sceneId: string, thumb: string, steps: seq<Step>)
    requires forall i :: 0 <= i < |steps| ==> AnchorTag(doc, StepAnchor(steps[i])).None?
    ensures RunSteps(site, doc, f, sceneId, thumb, steps) == doc
    decreases |steps|
  {
    if steps != [] {
      assert AnchorTag(doc, StepAnchor(steps[0])).None?;
      StepsWithoutAnchors(site, doc, f, sceneId, thumb, steps[1..]);
    }
  }

  /** The anchors the injections look for. */
  predicate NoAnchors(doc: string)
  {
    forall i :: 0 <= i < |Steps| ==> AnchorTag(doc, StepAnchor(Steps[i])).None?
  }

  /** A document without any of the anchor layers comes through the injections unchanged. */
  lemma InjectionsWithoutAnchors(site: Site, doc: string, f: SceneForm, sceneId: string, thumb: string)
    requires NoAnchors(doc)
    ensures Injections(site, doc, f, sceneId, thumb) == doc
  {
    StepsWithoutAnchors(site, doc, f, sceneId, thumb, Steps);
  }

  /** A form with a blank title, no map link and blank details gets the thumbnail only. */
  lemma {:induction false} BlankFormAddsThumbOnly(site: Site, doc: string, f: SceneForm, sceneId: string, thumb: string, steps: seq<Step>)
    requires Naming.IsFalsy(f.mapSrc) && Blank(f.title)
    requires forall d :: Blank(DetailValue(f, d))
    requires ThumbStep !in steps
    ensures RunSteps(site, doc, f, sceneId, thumb, steps) == doc
    decreases |steps|
  {
    if steps != [] {
      assert steps[0] != ThumbStep;
      assert Inject(site, doc, f, sceneId, thumb, steps[0]) == doc;
      BlankFormAddsThumbOnly(site, doc, f, sceneId, thumb, steps[1..]);
    }
  }

  // ---------------------------------------------------------------------------
  // appendSceneToXml
  // ---------------------------------------------------------------------------

  /** The controller's scene block, with the title and the location escaped. */
  function ControllerScene(sceneId: string, f: SceneForm, thumb: string, preview: string, cubeUrl: string, multires: string): string
  {
    ControllerSceneBlock(sceneId, HtmlSpecialChars(f.title), HtmlSpecialChars(f.location), thumb, preview, cubeUrl, multires)
  }

  /** The service's scene block, title and location as typed, followed by a line break. */
  function ServiceScene(sceneId: string, f: SceneForm, thumb: string, preview: string, cubeUrl: string, multires: string): string
  {
    ServiceSceneBlock(sceneId, f.title, f.location, thumb, preview, cubeUrl, multires) + "\n"
  }

  /**
   * The controller's appendSceneToXml on the loaded document (None when it is
   * missing): the document it leaves saved, None when it saves nothing.
   */
  function ControllerAppendScene(doc: Option<string>, sceneId: string, f: SceneForm, thumb: string, preview: string, cubeUrl: string, multires: string): (r: Option<string>)
    ensures r.Some? <==> doc.Some? && Contains(doc.value, KrpanoClose)
  {
    if doc.None? || !Contains(doc.value, KrpanoClose) then None
    else Some(Injections(Controller, InsertBeforeClose(doc.value, ControllerScene(sceneId, f, thumb, preview, cubeUrl, multires)), f, sceneId, thumb))
  }

  /**
   * The service's appendSceneToXml: None when it throws on a missing or blank
   * document, else the document it leaves saved.
   */
  function ServiceAppendScene(doc: Option<string>, sceneId: string, f: SceneForm, thumb: string, preview: string, cubeUrl: string, multires: string): (r: Option<string>)
    ensures r.None? <==> Naming.IsFalsy(doc)
  {
    if Naming.IsFalsy(doc) then None
    else Some(Injections(Service, InsertBeforeClose(doc.value, ServiceScene(sceneId, f, thumb, preview, cubeUrl, multires)), f, sceneId, thumb))
  }

  /** Without a closing tag the service saves the loaded document unchanged before it injects the layers. */
  lemma ServiceAppendWithoutClose(doc: string, sceneId: string, f: SceneForm, thumb: string, preview: string, cubeUrl: string, multires: string)
    requires !Naming.IsFalsy(Some(doc)) && !Contains(doc, KrpanoClose)
    ensures ServiceAppendScene(Some(doc), sceneId, f, thumb, preview, cubeUrl, multires) == Some(Injections(Service, doc, f, sceneId, thumb))
  {
    InsertWithoutClose(doc, ServiceScene(sceneId, f, thumb, preview, cubeUrl, multires));
  }

  /**
   * On a document with neither a closing tag nor an anchor, the controller
   * saves nothing and the service saves the document as it was.
   */
  lemma AppendCopiesDiffer(doc: string, sceneId: string, f: SceneForm, thumb: string, preview: string, cubeUrl: string, multires: string)
    requires doc != "" && doc != "0" && !Contains(doc, KrpanoClose) && NoAnchors(doc)
    ensures ControllerAppendScene(Some(doc), sceneId, f, thumb, preview, cubeUrl, multires).None?
    ensures ServiceAppendScene(Some(doc), sceneId, f, thumb, preview, cubeUrl, multires) == Some(doc)
  {
    ServiceAppendWithoutClose(doc, sceneId, f, thumb, preview, cubeUrl, multires);
    InjectionsWithoutAnchors(Service, doc, f, sceneId, thumb);
  }
}
