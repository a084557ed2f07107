/**
 * The controller's edits of a scene already in the tour document.
 * updateSceneMetaInXml rewrites the title, subtitle and places attributes of
 * every opening tag of the scene; updateLayerMetaInXml takes the first layer
 * block linked to the scene, rewrites its first name and barangay attributes
 * and its first text label, and puts the edited block in place of every copy
 * of the original (str_replace).
 *
 * On a scene tag written as a list of attributes (Blocks.SceneTagText), the
 * callback's three rewrites are characterised by Retitled: every key keeps
 * its place, and the values of places, subtitle and title are replaced.
 *
 * The attribute values are inserted as text: the source hands them to
 * preg_replace as replacement strings, where `$1` or `\1` in user text would
 * be expanded (see the anchored injectors' finding in Splices).
 */
module Metadata {
  import opened Text
  import opened Markup
  import opened Patterns
  import opened Blocks

  /** `NAME="VALUE"`: the text an attribute rewrite puts in place of the attribute. */
  function AttrText(name: string, value: string): string
  {
    name + "=\"" + value + "\""
  }

  /** What `NAME="[^"]*"` looks for first: the attribute name, '=' and the opening quote. */
  function AttrKey(name: string): string
  {
    name + "=\""
  }

  // ---------------------------------------------------------------------------
  // updateSceneMetaInXml
  // ---------------------------------------------------------------------------

  /** updateSceneMetaInXml: every opening tag of scene_ID gets the new title, subtitle and places. */
  function UpdateSceneMeta(doc: string, sceneId: string, title: string, subtitle: string): string
  {
    Rewrite(SceneTag(sceneId), doc, SceneMeta(title, subtitle))
  }

  /** A document without an opening tag of scene_ID is saved as it was loaded. */
  lemma UpdateSceneMetaWithoutScene(doc: string, sceneId: string, title: string, subtitle: string)
    requires forall j :: 0 <= j < |doc| ==> !MatchesAt(SceneTag(sceneId), doc, j)
    ensures UpdateSceneMeta(doc, sceneId, title, subtitle) == doc
  {
    RewriteNoMatch(SceneTag(sceneId), doc, SceneMeta(title, subtitle));
  }

  /**
   * The text before the scene's first opening tag is kept, the tag is
   * retitled, and the rest of the document is edited the same way.
   */
  lemma UpdateSceneMetaAtTag(doc: string, sceneId: string, title: string, subtitle: string, k: nat, n: nat)
    requires FirstMatch(SceneTag(sceneId), doc, 0) == Some(k) && MatchLen(SceneTag(sceneId), doc[k..]) == Some(n)
    ensures k + n <= |doc| && doc[k + n - 1] == '>'
    ensures UpdateSceneMeta(doc, sceneId, title, subtitle) ==
      doc[..k] + RetagScene(doc[k..k + n], title, subtitle) + UpdateSceneMeta(doc[k + n..], sceneId, title, subtitle)
  {
    RewriteAtFirstMatch(SceneTag(sceneId), doc, SceneMeta(title, subtitle), k, n);
    assert doc[k..][n - 1] == doc[k + n - 1];
  }

  /** The callback on one opening tag `m` (its '>' included): three attribute rewrites on the tag, the '>' put back. */
  function RetagScene(m: string, title: string, subtitle: string): (r: string)
    requires m != []
    ensures |r| > 0 && r[|r| - 1] == m[|m| - 1]
  {
    FillWith(SceneMeta(title, subtitle), SceneTag(""), m)
  }

  // ---------------------------------------------------------------------------
  // Attribute rewrites
  // ---------------------------------------------------------------------------

  /** Where `NAME="[^"]*"` matches: at an occurrence of `NAME="` whose value is closed by a quote. */
  lemma AttrMatchAt(name: string, t: string, k: nat, q: nat)
    requires LitAt(t, k, AttrKey(name), false) && IndexOf(t, '"', k + |AttrKey(name)|) == Some(q)
    ensures MatchesAt(Attr(name), t, k) && MatchLen(Attr(name), t[k..]) == Some(q + 1 - k)
  {
    var u := t[k..];
    LitAtSuffix(t, k, AttrKey(name));
    forall j | |AttrKey(name)| <= j < q - k ensures u[j] != '"' {
      assert u[j] == t[k + j];
    }
    AttrLenIs(name, u, q - k);
  }

  /** The attribute pattern at the start of a text: the key, then the value up to the next quote. */
  lemma AttrLenIs(name: string, u: string, q: nat)
    requires LitAt(u, 0, AttrKey(name), false) && |AttrKey(name)| <= q < |u| && u[q] == '"'
    requires forall j :: |AttrKey(name)| <= j < q ==> u[j] != '"'
    ensures MatchLen(Attr(name), u) == Some(q + 1)
  {
    IndexOfIs(u, '"', |AttrKey(name)|, q);
    assert LitAt(u, 0, name + "=\"", false);
  }

  /** Without an occurrence of `NAME="` there is no match of the attribute pattern. */
  lemma AttrNeedsKey(name: string, t: string, j: nat)
    requires MatchesAt(Attr(name), t, j)
    ensures LitAt(t, j, AttrKey(name), false)
  {
    var key := AttrKey(name);
    assert t[j..][0..|key|] == t[j..j + |key|];
  }

  /** Where `NAME="` does not occur, the attribute pattern does not match. */
  lemma NoAttrWithoutKey(name: string, t: string, from: nat, to: nat)
    requires forall j :: from <= j < to ==> !LitAt(t, j, AttrKey(name), false)
    ensures forall j :: from <= j < to ==> !MatchesAt(Attr(name), t, j)
  {
    forall j | from <= j < to ensures !MatchesAt(Attr(name), t, j) {
      if MatchesAt(Attr(name), t, j) {
        AttrNeedsKey(name, t, j);
      }
    }
  }

  /** The first `NAME="…"` is the first match of the attribute pattern. */
  lemma FirstAttrAt(name: string, t: string, k: nat, q: nat)
    requires Find(t, AttrKey(name), 0, false) == Some(k) && IndexOf(t, '"', k + |AttrKey(name)|) == Some(q)
    ensures FirstMatch(Attr(name), t, 0) == Some(k) && MatchLen(Attr(name), t[k..]) == Some(q + 1 - k)
  {
    AttrMatchAt(name, t, k, q);
    NoAttrWithoutKey(name, t, 0, k);
    FirstMatchIs(Attr(name), t, 0, k);
  }

  /** Without a later `NAME="`, the attribute pattern matches nowhere after the value's closing quote. */
  lemma NoAttrAfter(name: string, t: string, from: nat)
    requires Find(t, AttrKey(name), from, false).None?
    ensures FirstMatch(Attr(name), t, from).None?
  {
    NoAttrWithoutKey(name, t, from, |t|);
    NoMatchFrom(Attr(name), t, from);
  }

  /**
   * preg_replace(..., 1) on an attribute: the first `NAME="…"` is replaced by
   * `NAME="VALUE"`, everything before and after it is kept.
   */
  lemma SetFirstAttr(name: string, t: string, value: string, k: nat, q: nat)
    requires Find(t, AttrKey(name), 0, false) == Some(k) && IndexOf(t, '"', k + |AttrKey(name)|) == Some(q)
    ensures RewriteFirst(Attr(name), t, Literal(AttrText(name, value))) == t[..k] + AttrText(name, value) + t[q + 1..]
  {
    assert FirstMatch(Attr(name), t, 0).Some? && FirstMatch(Attr(name), t, 0).value == k by {
      FirstAttrAt(name, t, k, q);
    }
    assert MatchLen(Attr(name), t[k..]).Some? && MatchLen(Attr(name), t[k..]).value == q + 1 - k by {
      FirstAttrAt(name, t, k, q);
    }
    RewriteFirstLiteral(Attr(name), t, AttrText(name, value), k, q + 1);
  }

  /**
   * preg_replace without a limit on a text holding one `NAME="…"`: that
   * attribute becomes `NAME="VALUE"`, everything else is kept.
   */
  lemma SetOnlyAttr(name: string, t: string, value: string, k: nat, q: nat)
    requires Find(t, AttrKey(name), 0, false) == Some(k) && IndexOf(t, '"', k + |AttrKey(name)|) == Some(q)
    requires Find(t, AttrKey(name), q + 1, false).None?
    ensures Rewrite(Attr(name), t, Literal(AttrText(name, value))) == t[..k] + AttrText(name, value) + t[q + 1..]
  {
    OnlyAttrIsFirst(name, t, value, k, q);
    SetFirstAttr(name, t, value, k, q);
  }

  /** With one `NAME="…"` in the text, replacing every match is replacing the first. */
  lemma OnlyAttrIsFirst(name: string, t: string, value: string, k: nat, q: nat)
    requires Find(t, AttrKey(name), 0, false) == Some(k) && IndexOf(t, '"', k + |AttrKey(name)|) == Some(q)
    requires Find(t, AttrKey(name), q + 1, false).None?
    ensures Rewrite(Attr(name), t, Literal(AttrText(name, value))) == RewriteFirst(Attr(name), t, Literal(AttrText(name, value)))
  {
    FirstAttrAt(name, t, k, q);
    NoAttrAfter(name, t, q + 1);
    var n: nat := q + 1 - k;
    assert k + n == q + 1;
    RewriteSingleMatch(Attr(name), t, Literal(AttrText(name, value)), k, n);
  }

  /** No match at or after `from`: the search from there finds none. */
  lemma {:induction false} NoMatchFrom(p: Pattern, t: string, from: nat)
    requires forall j :: from <= j ==> !MatchesAt(p, t, j)
    ensures FirstMatch(p, t, from).None?
    decreases |t| - from
  {
    if from < |t| {
      NoMatchFrom(p, t, from + 1);
    }
  }

  // ---------------------------------------------------------------------------
  // The callback on scene tags written as attribute lists
  // ---------------------------------------------------------------------------

  /** An attribute name the rewrites look for: not empty, without a space or a quote. */
  predicate PlainName(n: string)
  {
    n != [] && ' ' !in n && '"' !in n
  }

  /**
   * A value the attribute pattern reads back whole: no quote, and no '=' at
   * its end (there, followed by the closing quote, it would look like the
   * start of another attribute's value).
   */
  predicate PlainValue(v: string)
  {
    '"' !in v && (v == [] || v[|v| - 1] != '=')
  }

  /** A key without '=' or a quote, and a plain value. */
  predicate PlainAttr(a: Attribute)
  {
    '=' !in a.key && '"' !in a.key && PlainValue(a.value)
  }

  predicate PlainAttrs(attrs: seq<Attribute>)
  {
    forall i :: 0 <= i < |attrs| ==> PlainAttr(attrs[i])
  }

  /** One attribute pass on a tag's attributes: every attribute whose key ends in NAME gets VALUE. */
  function SetAttrs(attrs: seq<Attribute>, name: string, value: string): (r: seq<Attribute>)
    ensures |r| == |attrs|
  {
    seq(|attrs|, i requires 0 <= i < |attrs| => if EndsWith(attrs[i].key, name) then Attribute(attrs[i].key, value) else attrs[i])
  }

  /**
   * The new value of an attribute after the callback: a key ending in
   * "places" takes the title; one ending in "subtitle" takes the subtitle
   * (the title pass writes the title into it first, since `subtitle="` holds
   * `title="`, and the subtitle pass overwrites it); one ending in "title"
   * takes the title; any other value is kept.
   */
  function RetitledValue(a: Attribute, title: string, subtitle: string): string
  {
    if EndsWith(a.key, "places") then title
    else if EndsWith(a.key, "subtitle") then subtitle
    else if EndsWith(a.key, "title") then title
    else a.value
  }

  /** The attributes after the callback: the same keys in the same order, each with its new value. */
  function Retitled(attrs: seq<Attribute>, title: string, subtitle: string): seq<Attribute>
  {
    seq(|attrs|, i requires 0 <= i < |attrs| => Attribute(attrs[i].key, RetitledValue(attrs[i], title, subtitle)))
  }

  /** Where the characters of an attribute's text sit. */
  lemma ChunkChars(a: Attribute)
    ensures |AttrChunk(a)| == |a.key| + |a.value| + 4
    ensures AttrChunk(a)[0] == ' '
    ensures forall i :: 1 <= i <= |a.key| ==> AttrChunk(a)[i] == a.key[i - 1]
    ensures AttrChunk(a)[1 + |a.key|] == '=' && AttrChunk(a)[2 + |a.key|] == '"'
    ensures forall i :: 3 + |a.key| <= i < 3 + |a.key| + |a.value| ==> AttrChunk(a)[i] == a.value[i - 3 - |a.key|]
    ensures AttrChunk(a)[3 + |a.key| + |a.value|] == '"'
  {
  }

  /** What an occurrence of `NAME="` at j says about the characters from j on. */
  lemma KeyAt(n: string, s: string, j: nat)
    requires LitAt(s, j, AttrKey(n), false)
    ensures j + |n| + 2 <= |s| && s[j + |n|] == '=' && s[j + |n| + 1] == '"'
    ensures forall i :: j <= i < j + |n| ==> s[i] == n[i - j]
  {
    var w := s[j..j + |n| + 2];
    assert w == n + "=\"";
    assert w[|n|] == s[j + |n|] && w[|n| + 1] == s[j + |n| + 1];
    forall i | j <= i < j + |n| ensures s[i] == n[i - j] {
      assert w[i - j] == s[i];
    }
  }

  /** Inside one plain attribute, `NAME="` starts only where NAME ends its key. */
  lemma AttrKeyInChunk(n: string, a: Attribute, rest: string, j: nat)
    requires PlainName(n) && PlainAttr(a) && j < |AttrChunk(a)|
    ensures LitAt(AttrChunk(a) + rest, j, AttrKey(n), false) ==> j == 1 + |a.key| - |n| && EndsWith(a.key, n)
  {
    var c := AttrChunk(a);
    var s := c + rest;
    var k := a.key;
    if LitAt(s, j, AttrKey(n), false) {
      var e := j + |n|;
      KeyAt(n, s, j);
      ChunkChars(a);
      assert e < |c| - 1 by {
        assert s[|c| - 1] == '"';
      }
      assert c[e] == '=' && c[e + 1] == '"';
      assert e == 1 + |k|;
      assert j != 0 by {
        assert s[j] == n[0];
      }
      forall i | 0 <= i < |n| ensures k[|k| - |n| + i] == n[i] {
        assert c[j + i] == k[j + i - 1];
        assert s[j + i] == n[j + i - j];
      }
      assert k[|k| - |n|..] == n;
    }
  }

  /** Text without '=' followed by a space or nothing holds no start of `NAME="`. */
  lemma HeadHasNoKey(n: string, h: string, t: string, j: nat)
    requires PlainName(n) && '=' !in h && j < |h| && (t == [] || t[0] == ' ')
    ensures !LitAt(h + t, j, AttrKey(n), false)
  {
    var s := h + t;
    assert forall i :: 0 <= i < |h| ==> s[i] != '=' by {
      forall i | 0 <= i < |h| ensures s[i] != '=' {
        assert s[i] == h[i];
      }
    }
    assert |s| > |h| ==> s[|h|] == ' ';
    if LitAt(s, j, AttrKey(n), false) {
      KeyAt(n, s, j);
    }
  }

  /** Where NAME ends the key of a plain attribute, `NAME="…"` matches there up to the attribute's closing quote. */
  lemma ChunkKeyAt(n: string, a: Attribute, rest: string)
    requires PlainName(n) && PlainAttr(a) && EndsWith(a.key, n)
    ensures var s := AttrChunk(a) + rest;
            var j0 := 1 + |a.key| - |n|;
            LitAt(s, j0, AttrKey(n), false) &&
            IndexOf(s, '"', j0 + |AttrKey(n)|).Some? && IndexOf(s, '"', j0 + |AttrKey(n)|).value == |AttrChunk(a)| - 1
  {
    var c := AttrChunk(a);
    var s := c + rest;
    var k := a.key;
    var j0 := 1 + |k| - |n|;
    ChunkChars(a);
    assert s[j0..j0 + |n|] == n by {
      forall i | 0 <= i < |n| ensures s[j0..j0 + |n|][i] == n[i] {
        assert s[j0 + i] == k[|k| - |n| + i];
        assert k[|k| - |n|..][i] == k[|k| - |n| + i];
      }
    }
    assert s[j0..j0 + |n| + 2] == s[j0..j0 + |n|] + [s[j0 + |n|], s[j0 + |n| + 1]];
    IndexOfIs(s, '"', j0 + |AttrKey(n)|, |c| - 1);
  }

  /** Putting `NAME="VALUE"` after the part of the key before NAME gives the attribute with the new value. */
  lemma ChunkRegroup(k: string, n: string, v: string, head: string)
    requires EndsWith(k, n) && head == " " + k[..|k| - |n|]
    ensures head + AttrText(n, v) == AttrChunk(Attribute(k, v))
  {
    assert k == k[..|k| - |n|] + n;
  }

  /** Within one plain attribute, `NAME="` occurs at most where NAME ends the key. */
  lemma ChunkKeys(n: string, a: Attribute, rest: string)
    requires PlainName(n) && PlainAttr(a)
    ensures forall j :: 0 <= j < |AttrChunk(a)| && LitAt(AttrChunk(a) + rest, j, AttrKey(n), false) ==>
              j == 1 + |a.key| - |n| && EndsWith(a.key, n)
  {
    forall j | 0 <= j < |AttrChunk(a)| && LitAt(AttrChunk(a) + rest, j, AttrKey(n), false)
      ensures j == 1 + |a.key| - |n| && EndsWith(a.key, n)
    {
      AttrKeyInChunk(n, a, rest, j);
    }
  }

  /** Around the value of an attribute whose key ends in NAME: the text before `NAME="` and after the closing quote. */
  lemma ChunkAround(n: string, v: string, a: Attribute, rest: string)
    requires EndsWith(a.key, n)
    ensures var s := AttrChunk(a) + rest;
            s[..1 + |a.key| - |n|] + AttrText(n, v) == AttrChunk(Attribute(a.key, v)) &&
            s[|AttrChunk(a)|..] == rest
  {
    var s := AttrChunk(a) + rest;
    var k := a.key;
    assert s[..1 + |k| - |n|] == " " + k[..|k| - |n|] by {
      ChunkChars(a);
    }
    ChunkRegroup(k, n, v, s[..1 + |k| - |n|]);
  }

  /** The first `NAME="` in an attribute whose key ends in NAME, and the quote that closes its value. */
  lemma ChunkFindsKey(n: string, a: Attribute, rest: string)
    requires PlainName(n) && PlainAttr(a) && EndsWith(a.key, n)
    ensures var s := AttrChunk(a) + rest;
            var j0 := 1 + |a.key| - |n|;
            Find(s, AttrKey(n), 0, false) == Some(j0) && IndexOf(s, '"', j0 + |AttrKey(n)|) == Some(|AttrChunk(a)| - 1)
  {
    var s := AttrChunk(a) + rest;
    ChunkKeys(n, a, rest);
    ChunkKeyAt(n, a, rest);
    FindIs(s, AttrKey(n), 0, false, 1 + |a.key| - |n|);
  }

  /** A pass over an attribute whose key ends in NAME: the value is replaced, the pass goes on after it. */
  lemma RewriteChunkSet(n: string, v: string, a: Attribute, rest: string)
    requires PlainName(n) && PlainAttr(a) && EndsWith(a.key, n)
    ensures Rewrite(Attr(n), AttrChunk(a) + rest, Literal(AttrText(n, v))) ==
            AttrChunk(Attribute(a.key, v)) + Rewrite(Attr(n), rest, Literal(AttrText(n, v)))
  {
    var s := AttrChunk(a) + rest;
    var j0 := 1 + |a.key| - |n|;
    var q := |AttrChunk(a)| - 1;
    ChunkFindsKey(n, a, rest);
    FirstAttrAt(n, s, j0, q);
    RewriteAtFirstMatch(Attr(n), s, Literal(AttrText(n, v)), j0, q + 1 - j0);
    ChunkAround(n, v, a, rest);
  }

  /** A pass over an attribute whose key does not end in NAME keeps it. */
  lemma RewriteChunkKeep(n: string, v: string, a: Attribute, rest: string)
    requires PlainName(n) && PlainAttr(a) && !EndsWith(a.key, n)
    ensures Rewrite(Attr(n), AttrChunk(a) + rest, Literal(AttrText(n, v))) ==
            AttrChunk(a) + Rewrite(Attr(n), rest, Literal(AttrText(n, v)))
  {
    ChunkKeys(n, a, rest);
    NoAttrWithoutKey(n, AttrChunk(a) + rest, 0, |AttrChunk(a)|);
    RewritePrefix(Attr(n), AttrChunk(a), rest, Literal(AttrText(n, v)));
  }

  /** One pass over one plain attribute and the text after it. */
  lemma RewriteChunk(n: string, v: string, a: Attribute, rest: string)
    requires PlainName(n) && PlainAttr(a)
    ensures Rewrite(Attr(n), AttrChunk(a) + rest, Literal(AttrText(n, v))) ==
            AttrChunk(if EndsWith(a.key, n) then Attribute(a.key, v) else a) + Rewrite(Attr(n), rest, Literal(AttrText(n, v)))
  {
    if EndsWith(a.key, n) {
      RewriteChunkSet(n, v, a, rest);
    } else {
      RewriteChunkKeep(n, v, a, rest);
    }
  }

  /** One pass over a list of plain attributes sets every attribute whose key ends in NAME. */
  lemma {:induction false} RewriteAttrs(n: string, v: string, attrs: seq<Attribute>)
    requires PlainName(n) && PlainAttrs(attrs)
    ensures Rewrite(Attr(n), AttrsText(attrs), Literal(AttrText(n, v))) == AttrsText(SetAttrs(attrs, n, v))
    decreases |attrs|
  {
    if attrs != [] {
      RewriteChunk(n, v, attrs[0], AttrsText(attrs[1..]));
      RewriteAttrs(n, v, attrs[1..]);
      assert SetAttrs(attrs, n, v)[1..] == SetAttrs(attrs[1..], n, v);
    }
  }

  /** One pass over a scene tag without its '>': the tag name is kept, the attributes are set. */
  lemma RewriteSceneTag(n: string, v: string, attrs: seq<Attribute>)
    requires PlainName(n) && PlainAttrs(attrs)
    ensures Rewrite(Attr(n), "<scene" + AttrsText(attrs), Literal(AttrText(n, v))) == "<scene" + AttrsText(SetAttrs(attrs, n, v))
  {
    var t := AttrsText(attrs);
    assert t == [] || t[0] == ' ' by {
      if attrs != [] {
        assert t == AttrChunk(attrs[0]) + AttrsText(attrs[1..]);
      }
    }
    forall j | 0 <= j < 6 ensures !LitAt("<scene" + t, j, AttrKey(n), false) {
      HeadHasNoKey(n, "<scene", t, j);
    }
    NoAttrWithoutKey(n, "<scene" + t, 0, 6);
    RewritePrefix(Attr(n), "<scene", t, Literal(AttrText(n, v)));
    RewriteAttrs(n, v, attrs);
  }

  /** A pass with a plain value keeps the attributes plain. */
  lemma SetAttrsPlain(attrs: seq<Attribute>, n: string, v: string)
    requires PlainAttrs(attrs) && PlainValue(v)
    ensures PlainAttrs(SetAttrs(attrs, n, v))
  {
  }

  /** The callback as its three passes, the last character put back. */
  lemma RetagSceneSteps(m: string, title: string, subtitle: string)
    requires m != []
    ensures RetagScene(m, title, subtitle) ==
            Rewrite(Attr("places"),
                    Rewrite(Attr("subtitle"),
                            Rewrite(Attr("title"), m[..|m| - 1], Literal(AttrText("title", title))),
                            Literal(AttrText("subtitle", subtitle))),
                    Literal(AttrText("places", title))) + m[|m| - 1..]
  {
    assert "title=\"" + title + "\"" == AttrText("title", title);
    assert "subtitle=\"" + subtitle + "\"" == AttrText("subtitle", subtitle);
    assert "places=\"" + title + "\"" == AttrText("places", title);
  }

  /** The three passes set the attributes as Retitled says. */
  lemma PassesRetitle(attrs: seq<Attribute>, title: string, subtitle: string)
    ensures SetAttrs(SetAttrs(SetAttrs(attrs, "title", title), "subtitle", subtitle), "places", title) == Retitled(attrs, title, subtitle)
  {
    var r := SetAttrs(SetAttrs(SetAttrs(attrs, "title", title), "subtitle", subtitle), "places", title);
    forall i | 0 <= i < |attrs| ensures r[i] == Retitled(attrs, title, subtitle)[i] {
      var k := attrs[i].key;
      assert EndsWith(k, "places") ==> !EndsWith(k, "title") && !EndsWith(k, "subtitle") by {
        if EndsWith(k, "places") {
          assert k[|k| - 1] == 's';
        }
      }
      assert EndsWith(k, "subtitle") ==> EndsWith(k, "title") by {
        if EndsWith(k, "subtitle") {
          assert k[|k| - 5..] == k[|k| - 8..][3..];
        }
      }
    }
  }

  /**
   * updateSceneMetaInXml's callback on a scene tag whose attribute values
   * and new texts hold no quote and do not end in '=': every attribute keeps
   * its key and its place, and takes its value as Retitled says.
   */
  lemma RetagSceneTag(attrs: seq<Attribute>, title: string, subtitle: string)
    requires PlainAttrs(attrs) && PlainValue(title) && PlainValue(subtitle)
    ensures RetagScene(SceneTagText(attrs), title, subtitle) == SceneTagText(Retitled(attrs, title, subtitle))
  {
    var m := SceneTagText(attrs);
    var a1 := SetAttrs(attrs, "title", title);
    var a2 := SetAttrs(a1, "subtitle", subtitle);
    RetagSceneSteps(m, title, subtitle);
    assert m[..|m| - 1] == "<scene" + AttrsText(attrs);
    assert m[|m| - 1..] == ">";
    RewriteSceneTag("title", title, attrs);
    SetAttrsPlain(attrs, "title", title);
    RewriteSceneTag("subtitle", subtitle, a1);
    SetAttrsPlain(a1, "subtitle", subtitle);
    RewriteSceneTag("places", title, a2);
    PassesRetitle(attrs, title, subtitle);
  }

  /** A key that ends in NAME ends in NAME's last character. */
  lemma EndsWithLast(k: string, n: string)
    requires n != []
    ensures EndsWith(k, n) ==> k != [] && k[|k| - 1] == n[|n| - 1]
  {
    if EndsWith(k, n) {
      assert k[|k| - |n|..][|n| - 1] == k[|k| - 1];
    }
  }

  /** The callback keeps the name, onstart and thumburl attributes. */
  lemma KeptByRetitle(v: string, title: string, subtitle: string)
    ensures RetitledValue(Attribute("name", v), title, subtitle) == v
    ensures RetitledValue(Attribute("onstart", v), title, subtitle) == v
    ensures RetitledValue(Attribute("thumburl", v), title, subtitle) == v
  {
    EndsWithLast("name", "places");
    EndsWithLast("onstart", "places");
    EndsWithLast("onstart", "title");
    EndsWithLast("thumburl", "places");
    EndsWithLast("thumburl", "subtitle");
    EndsWithLast("thumburl", "title");
  }

  /** The callback sets the title, subtitle and places attributes. */
  lemma SetByRetitle(v: string, title: string, subtitle: string)
    ensures RetitledValue(Attribute("title", v), title, subtitle) == title
    ensures RetitledValue(Attribute("subtitle", v), title, subtitle) == subtitle
    ensures RetitledValue(Attribute("places", v), title, subtitle) == title
  {
    EndsWithLast("subtitle", "places");
    assert "subtitle"[|"subtitle"| - |"subtitle"|..] == "subtitle";
    assert "places"[|"places"| - |"places"|..] == "places";
    assert "title"[|"title"| - |"title"|..] == "title";
  }

  /** A plain value after a prefix without quotes that does not end in '=' is plain. */
  lemma PlainAfter(p: string, v: string)
    requires p != [] && '"' !in p && p[|p| - 1] != '=' && PlainValue(v)
    ensures PlainValue(p + v)
  {
    if v == [] {
      assert p + v == p;
    } else {
      assert (p + v)[|p + v| - 1] == v[|v| - 1];
    }
  }

  /** The keys the editors and the job write have neither '=' nor a quote. */
  lemma KeysPlain()
    ensures '=' !in "name" && '"' !in "name"
    ensures '=' !in "title" && '"' !in "title"
    ensures '=' !in "subtitle" && '"' !in "subtitle"
    ensures '=' !in "onstart" && '"' !in "onstart"
    ensures '=' !in "places" && '"' !in "places"
    ensures '=' !in "thumburl" && '"' !in "thumburl"
  {
  }

  /** Every attribute of the controller's scene tag is plain when the values are. */
  lemma ControllerAttrsPlain(sceneId: string, title: string, subtitle: string, thumb: string)
    requires PlainValue(sceneId) && PlainValue(title) && PlainValue(subtitle) && PlainValue(thumb)
    ensures PlainAttrs(ControllerSceneAttrs(sceneId, title, subtitle, thumb))
  {
    var attrs := ControllerSceneAttrs(sceneId, title, subtitle, thumb);
    KeysPlain();
    PlainAfter("scene_", sceneId);
    assert PlainValue("filterLayersByPlace");
    forall i | 0 <= i < |attrs| ensures PlainAttr(attrs[i]) {
    }
  }

  /** The controller's tag attributes as the callback leaves them. */
  lemma ControllerAttrsRetitled(sceneId: string, title: string, subtitle: string, thumb: string, newTitle: string, newSubtitle: string)
    ensures Retitled(ControllerSceneAttrs(sceneId, title, subtitle, thumb), newTitle, newSubtitle) ==
            ControllerSceneAttrs(sceneId, newTitle, newSubtitle, thumb)
  {
    KeptByRetitle("scene_" + sceneId, newTitle, newSubtitle);
    KeptByRetitle("filterLayersByPlace", newTitle, newSubtitle);
    KeptByRetitle(thumb, newTitle, newSubtitle);
    SetByRetitle(title, newTitle, newSubtitle);
    SetByRetitle(subtitle, newTitle, newSubtitle);
  }

  /**
   * Retitling a scene the controller added: its opening tag comes back with
   * the new title (as title and as places) and the new subtitle; its name,
   * onstart and thumbnail are kept.
   */
  lemma ControllerSceneRetitled(sceneId: string, title: string, subtitle: string, thumb: string, newTitle: string, newSubtitle: string)
    requires PlainValue(sceneId) && PlainValue(title) && PlainValue(subtitle) && PlainValue(thumb)
    requires PlainValue(newTitle) && PlainValue(newSubtitle)
    ensures RetagScene(SceneTagText(ControllerSceneAttrs(sceneId, title, subtitle, thumb)), newTitle, newSubtitle) ==
            SceneTagText(ControllerSceneAttrs(sceneId, newTitle, newSubtitle, thumb))
  {
    ControllerAttrsPlain(sceneId, title, subtitle, thumb);
    RetagSceneTag(ControllerSceneAttrs(sceneId, title, subtitle, thumb), newTitle, newSubtitle);
    ControllerAttrsRetitled(sceneId, title, subtitle, thumb, newTitle, newSubtitle);
  }

  /** Every attribute of the service's scene tag is plain when the values are. */
  lemma ServiceAttrsPlain(sceneId: string, title: string, subtitle: string, thumb: string)
    requires PlainValue(sceneId) && PlainValue(title) && PlainValue(subtitle) && PlainValue(thumb)
    ensures PlainAttrs(ServiceSceneAttrs(sceneId, title, subtitle, thumb))
  {
    var attrs := ServiceSceneAttrs(sceneId, title, subtitle, thumb);
    KeysPlain();
    PlainAfter("scene_", sceneId);
    forall i | 0 <= i < |attrs| ensures PlainAttr(attrs[i]) {
    }
  }

  /** The service's tag attributes as the callback leaves them. */
  lemma ServiceAttrsRetitled(sceneId: string, title: string, subtitle: string, thumb: string, newTitle: string, newSubtitle: string)
    ensures Retitled(ServiceSceneAttrs(sceneId, title, subtitle, thumb), newTitle, newSubtitle) ==
            ServiceSceneAttrs(sceneId, newTitle, newSubtitle, thumb)
  {
    KeptByRetitle("scene_" + sceneId, newTitle, newSubtitle);
    KeptByRetitle(thumb, newTitle, newSubtitle);
    SetByRetitle(title, newTitle, newSubtitle);
    SetByRetitle(subtitle, newTitle, newSubtitle);
  }

  /**
   * Retitling a scene the pipeline service added: its tag has no places
   * attribute, so only the title and the subtitle change.
   */
  lemma ServiceSceneRetitled(sceneId: string, title: string, subtitle: string, thumb: string, newTitle: string, newSubtitle: string)
    requires PlainValue(sceneId) && PlainValue(title) && PlainValue(subtitle) && PlainValue(thumb)
    requires PlainValue(newTitle) && PlainValue(newSubtitle)
    ensures RetagScene(SceneTagText(ServiceSceneAttrs(sceneId, title, subtitle, thumb)), newTitle, newSubtitle) ==
            SceneTagText(ServiceSceneAttrs(sceneId, newTitle, newSubtitle, thumb))
  {
    ServiceAttrsPlain(sceneId, title, subtitle, thumb);
    RetagSceneTag(ServiceSceneAttrs(sceneId, title, subtitle, thumb), newTitle, newSubtitle);
    ServiceAttrsRetitled(sceneId, title, subtitle, thumb, newTitle, newSubtitle);
  }

  /** Every attribute of the job's scene tag is plain when the values are. */
  lemma JobAttrsPlain(sceneId: string, title: string, subtitle: string)
    requires PlainValue(sceneId) && PlainValue(title) && PlainValue(subtitle)
    ensures PlainAttrs(JobSceneAttrs(sceneId, title, subtitle))
  {
    var attrs := JobSceneAttrs(sceneId, title, subtitle);
    KeysPlain();
    assert '"' !in JobTiles(sceneId) + "thumb.jpg";
    PlainAfter(JobTiles(sceneId), "thumb.jpg");
    forall i | 0 <= i < |attrs| ensures PlainAttr(attrs[i]) {
    }
  }

  /** The job's tag attributes as the callback leaves them. */
  lemma JobAttrsRetitled(sceneId: string, title: string, subtitle: string, newTitle: string, newSubtitle: string)
    ensures Retitled(JobSceneAttrs(sceneId, title, subtitle), newTitle, newSubtitle) ==
            JobSceneAttrs(sceneId, newTitle, newSubtitle)
  {
    KeptByRetitle(sceneId, newTitle, newSubtitle);
    KeptByRetitle("", newTitle, newSubtitle);
    KeptByRetitle(JobTiles(sceneId) + "thumb.jpg", newTitle, newSubtitle);
    SetByRetitle(title, newTitle, newSubtitle);
    SetByRetitle(subtitle, newTitle, newSubtitle);
  }

  /**
   * Retitling a scene the panorama job added: the new title and subtitle
   * replace the old ones, the bare name and the tiler's thumbnail are kept.
   */
  lemma JobSceneRetitled(sceneId: string, title: string, subtitle: string, newTitle: string, newSubtitle: string)
    requires PlainValue(sceneId) && PlainValue(title) && PlainValue(subtitle)
    requires PlainValue(newTitle) && PlainValue(newSubtitle)
    ensures RetagScene(SceneTagText(JobSceneAttrs(sceneId, title, subtitle)), newTitle, newSubtitle) ==
            SceneTagText(JobSceneAttrs(sceneId, newTitle, newSubtitle))
  {
    JobAttrsPlain(sceneId, title, subtitle);
    RetagSceneTag(JobSceneAttrs(sceneId, title, subtitle), newTitle, newSubtitle);
    JobAttrsRetitled(sceneId, title, subtitle, newTitle, newSubtitle);
  }

  // ---------------------------------------------------------------------------
  // updateLayerMetaInXml
  // ---------------------------------------------------------------------------

  /** The edited layer block: its first name, its first barangay and its first text label rewritten. */
  function RetagLayer(block: string, name: string, barangay: string): string
  {
    var named := RewriteFirst(Attr("name"), block, Literal(AttrText("name", name)));
    var placed := RewriteFirst(Attr("barangay"), named, Literal(AttrText("barangay", barangay)));
    RewriteFirst(TextLabel, placed, Literal("<layer type=\"text\" text=\"" + ControllerLabel(name) + "\""))
  }

  /**
   * The edited layer block in terms of its attributes: with its first
   * `name="…"` at k1, closed at q1, and the first `barangay="…"` of the
   * renamed block at k2, closed at q2, the two values are replaced in place,
   * everything around them is kept, and the first text label is rewritten
   * last.
   */
  lemma RetagLayerAttrs(block: string, name: string, barangay: string, k1: nat, q1: nat, k2: nat, q2: nat)
    requires Find(block, AttrKey("name"), 0, false) == Some(k1) && IndexOf(block, '"', k1 + |AttrKey("name")|) == Some(q1)
    requires var named := block[..k1] + AttrText("name", name) + block[q1 + 1..];
             Find(named, AttrKey("barangay"), 0, false) == Some(k2) && IndexOf(named, '"', k2 + |AttrKey("barangay")|) == Some(q2)
    ensures var named := block[..k1] + AttrText("name", name) + block[q1 + 1..];
            var placed := named[..k2] + AttrText("barangay", barangay) + named[q2 + 1..];
            RetagLayer(block, name, barangay) == RewriteFirst(TextLabel, placed, Literal("<layer type=\"text\" text=\"" + ControllerLabel(name) + "\""))
  {
    var named := block[..k1] + AttrText("name", name) + block[q1 + 1..];
    SetFirstAttr("name", block, name, k1, q1);
    SetFirstAttr("barangay", named, barangay, k2, q2);
  }

  /**
   * updateLayerMetaInXml: None when no layer block is linked to scene_ID (the
   * source logs a warning and saves nothing); otherwise every copy of the
   * first such block replaced by its edited form.
   */
  function UpdateLayerMeta(doc: string, sceneId: string, name: string, barangay: string): (r: Option<string>)
    ensures r.None? <==> forall j :: 0 <= j < |doc| ==> !MatchesAt(LinkedLayer(sceneId), doc, j)
  {
    match FirstMatch(LinkedLayer(sceneId), doc, 0)
    case None => None
    case Some(k) => Some(EditBlock(doc, k, MatchLen(LinkedLayer(sceneId), doc[k..]).value, name, barangay))
  }

  /** str_replace of every copy of the block doc[k..k + n] by its edited form. */
  function EditBlock(doc: string, k: nat, n: nat, name: string, barangay: string): string
    requires k + n <= |doc|
  {
    ReplaceAll(doc, doc[k..k + n], RetagLayer(doc[k..k + n], name, barangay))
  }

  /**
   * The edit lands on the linked block itself: the text before it is kept
   * (no earlier copy of the block can exist, or the pattern would have matched
   * there), the block is replaced, and later copies of it are replaced too.
   */
  lemma UpdateLayerMetaAt(doc: string, sceneId: string, name: string, barangay: string, k: nat, n: nat)
    requires FirstMatch(LinkedLayer(sceneId), doc, 0) == Some(k) && MatchLen(LinkedLayer(sceneId), doc[k..]) == Some(n)
    ensures k + n <= |doc|
    ensures UpdateLayerMeta(doc, sceneId, name, barangay) ==
      Some(doc[..k] + RetagLayer(doc[k..k + n], name, barangay) + ReplaceAll(doc[k + n..], doc[k..k + n], RetagLayer(doc[k..k + n], name, barangay)))
  {
    UpdateLayerMetaFound(doc, sceneId, name, barangay, k, n);
    BlockFirstAt(doc, sceneId, k, n, 0);
    ReplaceFirstCopy(doc, k, n, RetagLayer(doc[k..k + n], name, barangay));
  }

  /** str_replace of a slice that first occurs where it was taken: the text before it is kept. */
  lemma ReplaceFirstCopy(doc: string, k: nat, n: nat, edited: string)
    requires 0 < n && k + n <= |doc| && Find(doc, doc[k..k + n], 0, false).Some? && Find(doc, doc[k..k + n], 0, false).value == k
    ensures ReplaceAll(doc, doc[k..k + n], edited) == doc[..k] + edited + ReplaceAll(doc[k + n..], doc[k..k + n], edited)
  {
    ReplaceAllAtFirst(doc, doc[k..k + n], edited, k);
  }

  /** With a linked block found, every copy of it is replaced by its edited form. */
  lemma UpdateLayerMetaFound(doc: string, sceneId: string, name: string, barangay: string, k: nat, n: nat)
    requires FirstMatch(LinkedLayer(sceneId), doc, 0) == Some(k) && MatchLen(LinkedLayer(sceneId), doc[k..]) == Some(n)
    ensures k + n <= |doc|
    ensures UpdateLayerMeta(doc, sceneId, name, barangay) ==
      Some(ReplaceAll(doc, doc[k..k + n], RetagLayer(doc[k..k + n], name, barangay)))
  {
  }

  /** The linked block's text does not occur earlier in the document: the search from `from` finds it at k. */
  lemma {:induction false} BlockFirstAt(doc: string, sceneId: string, k: nat, n: nat, from: nat)
    requires FirstMatch(LinkedLayer(sceneId), doc, 0) == Some(k) && MatchLen(LinkedLayer(sceneId), doc[k..]) == Some(n)
    requires from <= k
    ensures k + n <= |doc| && Find(doc, doc[k..k + n], from, false) == Some(k)
    decreases k - from
  {
    if from < k {
      CopyMatches(doc, sceneId, k, n, from);
      BlockFirstAt(doc, sceneId, k, n, from + 1);
    }
  }

  /** A copy of a linked block elsewhere in the document is a match of the pattern there too. */
  lemma CopyMatches(doc: string, sceneId: string, k: nat, n: nat, j: nat)
    requires k + n <= |doc| && MatchLen(LinkedLayer(sceneId), doc[k..]) == Some(n)
    ensures LitAt(doc, j, doc[k..k + n], false) ==> MatchesAt(LinkedLayer(sceneId), doc, j)
  {
    if LitAt(doc, j, doc[k..k + n], false) {
      CopyPrefix(doc, k, n, j);
      LinkedLayerIsLocal(sceneId, doc[k..], doc[j..], n);
    }
  }

  /** A copy of doc[k..k + n] at j: the texts from k and from j share their first n characters. */
  lemma CopyPrefix(doc: string, k: nat, n: nat, j: nat)
    requires k + n <= |doc| && LitAt(doc, j, doc[k..k + n], false)
    ensures j + n <= |doc| && doc[k..][..n] == doc[j..][..n]
  {
    assert doc[j..][..n] == doc[j..j + n];
    assert doc[k..][..n] == doc[k..k + n];
  }

  /** A linked layer block is recognised from its own text: another text that starts with it matches alike. */
  lemma LinkedLayerIsLocal(id: string, t1: string, t2: string, n: nat)
    requires MatchLen(LinkedLayer(id), t1) == Some(n) && n <= |t2| && t1[..n] == t2[..n]
    ensures MatchLen(LinkedLayer(id), t2) == Some(n)
  {
    LinkedLayerParts(id, t1);
    var f := TagWith(t1, 6, LinkedLit(id), true).value;
    IndexOfIs(t1, '>', 6, f);
    LitAtShared(t1, t2, n, 0, "<layer", true);
    TagWithIsLocal(t1, t2, n, 6, LinkedLit(id), true);
    CloseEndIsLocal(t1, t2, n, f + 1, "</layer>");
    LinkedLayerFrom(id, t2, f, n);
  }

  /** A linked-layer match: the tag name, a tag holding the link, and the nearest close after that tag. */
  lemma LinkedLayerParts(id: string, t: string)
    requires MatchLen(LinkedLayer(id), t).Some?
    ensures LitAt(t, 0, "<layer", true) && TagWith(t, 6, LinkedLit(id), true).Some?
    ensures MatchLen(LinkedLayer(id), t) == CloseEnd(t, TagWith(t, 6, LinkedLit(id), true).value + 1, "</layer>", true)
  {
  }

  /** The three steps of the linked-layer pattern, put together. */
  lemma LinkedLayerFrom(id: string, t: string, f: nat, n: nat)
    requires LitAt(t, 0, "<layer", true)
    requires TagWith(t, 6, LinkedLit(id), true).Some? && TagWith(t, 6, LinkedLit(id), true).value == f
    requires CloseEnd(t, f + 1, "</layer>", true).Some? && CloseEnd(t, f + 1, "</layer>", true).value == n
    ensures LinkedLayerLen(id, t).Some? && LinkedLayerLen(id, t).value == n
  {
  }

  /** The nearest close inside a shared prefix is the nearest close in the other text too. */
  lemma CloseEndIsLocal(t1: string, t2: string, m: nat, from: nat, close: string)
    requires m <= |t1| && m <= |t2| && t1[..m] == t2[..m]
    requires CloseEnd(t1, from, close, true).Some? && CloseEnd(t1, from, close, true).value <= m
    ensures CloseEnd(t2, from, close, true) == CloseEnd(t1, from, close, true)
  {
    FindIsLocal(t1, t2, m, close, from, Find(t1, close, from, true).value);
  }

  /** An occurrence found inside a shared prefix is found at the same place in the other text. */
  lemma FindIsLocal(t1: string, t2: string, m: nat, lit: string, from: nat, c: nat)
    requires m <= |t1| && m <= |t2| && t1[..m] == t2[..m]
    requires Find(t1, lit, from, true) == Some(c) && c + |lit| <= m
    ensures Find(t2, lit, from, true) == Some(c)
  {
    LitAtShared(t1, t2, m, c, lit, true);
    forall j | from <= j < c ensures !LitAt(t2, j, lit, true) {
      LitAtShared(t1, t2, m, j, lit, true);
    }
    FindIs(t2, lit, from, true, c);
  }
}
