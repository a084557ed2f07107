/**
 * Deleting a scene's elements from the tour document: the controller's
 * removeSceneFromXml and removeLayerFromXml, and the pipeline service's looser
 * copies. Each is preg_replace(pattern, '', doc): every match, left to right,
 * is cut out.
 *
 * On markup whose every '<' is closed by a '>' before the next '<' (no raw '<'
 * in text or attribute values), a cut never glues two pieces into a new match:
 * what the controller removes is gone for good, and removing the layers does
 * not bring a removed scene back.
 */
module Removal {
  import opened Text
  import opened Patterns

  // ---------------------------------------------------------------------------
  // The deletions
  // ---------------------------------------------------------------------------

  /** preg_replace(pattern, '', doc): every match cut out. */
  function Cut(p: Pattern, doc: string): string
  {
    Rewrite(p, doc, Literal(""))
  }

  /** The controller's removeSceneFromXml: `<scene ... name="scene_ID" ...>...</scene>` and the white space after it. */
  function ControllerRemoveScene(doc: string, sceneId: string): string
  {
    Cut(SceneBlock(sceneId), doc)
  }

  /** The controller's removeLayerFromXml: self-closing layers and layer blocks linked to scene_ID. */
  function ControllerRemoveLayer(doc: string, sceneId: string): string
  {
    Cut(LayerBlock(sceneId), doc)
  }

  /** The service's removeSceneFromXml: from a `<scene` whose tag holds `scene_ID` anywhere to the nearest `</scene>`. */
  function ServiceRemoveScene(doc: string, sceneId: string): string
  {
    Cut(SceneRef(sceneId), doc)
  }

  /** The service's removeLayerFromXml: from a `<layer` holding `linkedscene="scene_ID"` to the nearest `</layer>`. */
  function ServiceRemoveLayer(doc: string, sceneId: string): string
  {
    Cut(LayerRef(sceneId), doc)
  }

  /** No match of `p` starts anywhere in `t`. */
  predicate NoMatch(p: Pattern, t: string)
  {
    forall i :: 0 <= i < |t| ==> !MatchesAt(p, t, i)
  }

  /** A document without a match is saved exactly as it was loaded. */
  lemma CutWithoutMatch(p: Pattern, doc: string)
    requires NoMatch(p, doc)
    ensures Cut(p, doc) == doc
  {
    RewriteNoMatch(p, doc, Literal(""));
  }

  // ---------------------------------------------------------------------------
  // Markup whose tags are closed
  // ---------------------------------------------------------------------------

  /** The '<' at index i is closed by a '>' before any other '<'. */
  predicate ClosedAt(t: string, i: nat)
  {
    match IndexOf(t, '>', i + 1)
    case None => false
    case Some(g) => forall j :: i < j < g ==> t[j] != '<'
  }

  /** A '<' stands at index i. */
  predicate OpenAt(t: string, i: nat)
  {
    i < |t| && t[i] == '<'
  }

  /** Every '<' of the text is closed by a '>' before the next '<' opens. */
  ghost predicate TagsClosed(t: string)
  {
    forall i {:trigger OpenAt(t, i)} :: OpenAt(t, i) ==> ClosedAt(t, i)
  }

  /** A closing tag such as `</scene>`: it opens with '<' and its only '>' is its last character. */
  predicate CloseLike(lit: string)
  {
    |lit| >= 2 && lit[0] == '<' && forall k :: 0 <= k < |lit| - 1 ==> lit[k] != '>'
  }

  /** The patterns whose every match starts with '<'. */
  predicate Opens(p: Pattern)
  {
    p.SceneBlock? || p.LayerBlock? || p.SceneRef? || p.LayerRef?
  }

  lemma MatchOpens(p: Pattern, t: string)
    requires Opens(p)
    ensures MatchLen(p, t).Some? ==> t[0] == '<'
  {
    if MatchLen(p, t).Some? {
      assert LitAt(t, 0, "<scene", true) || LitAt(t, 0, "<layer", true);
      assert ToLower(t[0..6])[0] == '<';
    }
  }

  /** The tag opened at i, with another '<' at c0 after it, is closed before c0. */
  lemma ClosedBeforeCut(s: string, i: nat, c0: nat)
    requires TagsClosed(s) && i < c0 < |s| && s[i] == '<' && s[c0] == '<'
    ensures IndexOf(s, '>', i + 1).Some? && IndexOf(s, '>', i + 1).value < c0
    ensures forall j :: i < j < IndexOf(s, '>', i + 1).value ==> s[j] != '<'
  {
    assert OpenAt(s, i);
  }

  /** A suffix of closed markup is closed. */
  lemma TagsClosedSuffix(s: string, n: nat)
    requires TagsClosed(s) && n <= |s|
    ensures TagsClosed(s[n..])
  {
    var t := s[n..];
    forall i: nat | OpenAt(t, i) ensures ClosedAt(t, i) {
      assert OpenAt(s, n + i);
      var g := IndexOf(s, '>', n + i + 1).value;
      IndexOfIs(t, '>', i + 1, g - n);
    }
  }

  /** Closed markup after an untouched prefix stays closed. */
  lemma ClosedAtShift(a: string, b: string, i: nat)
    requires i < |b| && ClosedAt(b, i)
    ensures ClosedAt(a + b, |a| + i)
  {
    var g := IndexOf(b, '>', i + 1).value;
    var t := a + b;
    IndexOfIs(t, '>', |a| + i + 1, |a| + g);
  }

  /**
   * A cut starting with '<' at c0 cannot be straddled by a closing tag of the
   * text before it: its '<' would have to be closed before c0, and its only
   * '>' comes last.
   */
  lemma NoStraddle(s: string, r: string, c0: nat, j: nat, lit: string)
    requires TagsClosed(s) && c0 < |s| && s[c0] == '<' && c0 <= |r| && r[..c0] == s[..c0]
    requires CloseLike(lit) && j < c0 < j + |lit|
    ensures !LitAt(r, j, lit, true)
  {
    if s[j] == '<' {
      ClosedBeforeCut(s, j, c0);
      var g := IndexOf(s, '>', j + 1).value;
      assert r[g] == s[g];
      LitCharMismatch(r, j, lit, g - j);
    } else {
      assert r[j] == s[j];
      LitCharMismatch(r, j, lit, 0);
    }
  }

  /** Text whose k-th character differs from the literal's, case aside, does not match it there. */
  lemma LitCharMismatch(r: string, j: nat, lit: string, k: nat)
    requires k < |lit| && j + k < |r|
    ensures Lower(r[j + k]) != Lower(lit[k]) ==> !LitAt(r, j, lit, true)
  {
    if j + |lit| <= |r| {
      var w := r[j..j + |lit|];
      assert ToLower(w)[k] == Lower(r[j + k]);
      assert ToLower(lit)[k] == Lower(lit[k]);
    }
  }

  /** An occurrence of a closing tag in the cut text comes from the text it was cut from. */
  lemma CloseBack(s: string, r: string, c0: nat, lit: string, from: nat)
    requires TagsClosed(s) && c0 < |s| && s[c0] == '<' && c0 <= |r| && r[..c0] == s[..c0]
    requires CloseLike(lit) && from <= c0
    requires Find(r, lit, c0, true).Some? ==> Find(s, lit, c0, true).Some?
    ensures Find(r, lit, from, true).Some? ==> Find(s, lit, from, true).Some?
  {
    if Find(r, lit, from, true).Some? {
      var j := Find(r, lit, from, true).value;
      if j + |lit| <= c0 {
        assert r[j..j + |lit|] == r[..c0][j..j + |lit|];
        assert s[j..j + |lit|] == s[..c0][j..j + |lit|];
        FoundAt(s, lit, from, j);
      } else if j >= c0 {
        FoundAt(r, lit, c0, j);
        FoundAt(s, lit, from, Find(s, lit, c0, true).value);
      } else {
        NoStraddle(s, r, c0, j, lit);
      }
    }
  }

  /** A tag name such as `<scene`: a '<' and five characters that are not '>'. */
  predicate HeadLike(head: string)
  {
    |head| == 6 && head[0] == '<' && forall k :: 1 <= k < 6 ==> head[k] != '>'
  }

  /** Text matching a tag name, without regard to case, opens with '<' and has no '>' in the name. */
  lemma NoCloseInHead(r: string, head: string)
    requires HeadLike(head) && LitAt(r, 0, head, true)
    ensures r[0] == '<'
    ensures forall k :: 1 <= k < 6 ==> r[k] != '>'
  {
    var w := r[0..6];
    assert ToLower(w)[0] == ToLower(head)[0];
    forall k | 1 <= k < 6 ensures r[k] != '>' {
      assert ToLower(w)[k] == ToLower(head)[k];
    }
  }

  /**
   * The opening `<scene` or `<layer` of a match in the cut text is closed
   * before the cut, at the same '>' as in the text it was cut from.
   */
  lemma TagHeadBeforeCut(s: string, r: string, c0: nat, head: string)
    requires TagsClosed(s) && 1 <= c0 < |s| && s[c0] == '<' && c0 <= |r| && r[..c0] == s[..c0]
    requires HeadLike(head) && LitAt(r, 0, head, true)
    ensures IndexOf(s, '>', 6).Some? && 6 <= IndexOf(s, '>', 6).value < c0
    ensures 7 <= c0
  {
    NoCloseInHead(r, head);
    assert forall k :: 0 <= k < c0 ==> s[k] == r[k];
    ClosedBeforeCut(s, 0, c0);
    var g := IndexOf(s, '>', 1).value;
    IndexOfIs(s, '>', 6, g);
  }

  /** The head and the tag of a match in the cut text read the same in the text it was cut from. */
  lemma TagBack(s: string, r: string, c0: nat, head: string, lit: string)
    requires TagsClosed(s) && 1 <= c0 < |s| && s[c0] == '<' && c0 <= |r| && r[..c0] == s[..c0]
    requires HeadLike(head) && LitAt(r, 0, head, true)
    ensures LitAt(s, 0, head, true)
    ensures LayerOpenB(r) == LayerOpenB(s)
    ensures TagWith(r, 6, lit, true) == TagWith(s, 6, lit, true)
    ensures TagWith(s, 6, lit, true).Some? ==> TagWith(s, 6, lit, true).value + 1 <= c0
  {
    TagHeadBeforeCut(s, r, c0, head);
    LayerOpenIsLocal(s, r, c0);
    assert s[0..6] == r[0..6];
    TagWithIsLocal(s, r, c0, 6, lit, true);
  }

  const SceneClose := "</scene>"
  const LayerClose := "</layer>"

  lemma SceneIsTagLike()
    ensures CloseLike(SceneClose) && HeadLike("<scene")
  {
  }

  lemma LayerHeadLike()
    ensures HeadLike("<layer")
  {
  }

  lemma LayerCloseLike()
    ensures CloseLike(LayerClose)
  {
  }

  /** What a scene block match is made of: the head, a tag holding the name, and a `</scene>` after it. */
  lemma SceneBlockParts(id: string, t: string)
    ensures SceneBlockLen(id, t).Some? <==>
              LitAt(t, 0, "<scene", true) && TagWith(t, 6, SceneNameLit(id), true).Some? &&
              CloseEnd(t, TagWith(t, 6, SceneNameLit(id), true).value + 1, SceneClose, true).Some?
  {
  }

  /** The shape LayerBlockLen looks for, over a given linked-scene attribute. */
  predicate LayerParts(t: string, lit: string)
  {
    LayerOpenB(t) && TagEnds(t, lit, LayerClose)
  }

  /** A tag from index 6 holding `lit`, then a self-closing end or a `close` after it. */
  predicate TagEnds(t: string, lit: string, close: string)
  {
    match TagWith(t, 6, lit, true)
    case None => false
    case Some(f) => t[f - 1] == '/' || CloseEnd(t, f + 1, close, true).Some?
  }

  lemma LayerBlockParts(id: string, t: string)
    ensures LayerBlockLen(id, t).Some? <==> LayerParts(t, LinkedLit(StripPcreSpace(id)))
  {
  }

  lemma SceneBlockBack(id: string, s: string, r: string, c0: nat)
    requires TagsClosed(s) && 1 <= c0 < |s| && s[c0] == '<' && c0 <= |r| && r[..c0] == s[..c0]
    requires Find(r, SceneClose, c0, true).Some? ==> Find(s, SceneClose, c0, true).Some?
    ensures SceneBlockLen(id, r).Some? ==> SceneBlockLen(id, s).Some?
  {
    SceneBlockParts(id, r);
    SceneBlockParts(id, s);
    SceneIsTagLike();
    if SceneBlockLen(id, r).Some? {
      TagBack(s, r, c0, "<scene", SceneNameLit(id));
      var f := TagWith(r, 6, SceneNameLit(id), true).value;
      CloseBack(s, r, c0, SceneClose, f + 1);
    }
  }

  lemma LayerBlockBack(id: string, s: string, r: string, c0: nat)
    requires TagsClosed(s) && 1 <= c0 < |s| && s[c0] == '<' && c0 <= |r| && r[..c0] == s[..c0]
    requires Find(r, LayerClose, c0, true).Some? ==> Find(s, LayerClose, c0, true).Some?
    ensures LayerBlockLen(id, r).Some? ==> LayerBlockLen(id, s).Some?
  {
    LayerBlockParts(id, r);
    LayerBlockParts(id, s);
    LayerPartsBack(s, r, c0, LinkedLit(StripPcreSpace(id)));
  }

  /** Below the cut the two texts agree. */
  lemma SameBefore(s: string, r: string, c0: nat, j: nat)
    requires c0 <= |s| && c0 <= |r| && r[..c0] == s[..c0] && j < c0
    ensures r[j] == s[j]
  {
    assert r[..c0][j] == s[..c0][j];
  }

  /** TagBack for a `<layer\b` head. */
  lemma LayerTagBack(s: string, r: string, c0: nat, lit: string)
    requires TagsClosed(s) && 1 <= c0 < |s| && s[c0] == '<' && c0 <= |r| && r[..c0] == s[..c0]
    requires LayerOpenB(r)
    ensures LayerOpenB(s)
    ensures TagWith(r, 6, lit, true) == TagWith(s, 6, lit, true)
    ensures TagWith(s, 6, lit, true).Some? ==> TagWith(s, 6, lit, true).value + 1 <= c0
  {
    LayerHeadLike();
    TagBack(s, r, c0, "<layer", lit);
  }

  lemma LayerPartsBack(s: string, r: string, c0: nat, lit: string)
    requires TagsClosed(s) && 1 <= c0 < |s| && s[c0] == '<' && c0 <= |r| && r[..c0] == s[..c0]
    requires Find(r, LayerClose, c0, true).Some? ==> Find(s, LayerClose, c0, true).Some?
    ensures LayerParts(r, lit) ==> LayerParts(s, lit)
  {
    if LayerOpenB(r) {
      LayerTagBack(s, r, c0, lit);
      if TagWith(s, 6, lit, true).Some? {
        var f := TagWith(s, 6, lit, true).value;
        LayerCloseBack(s, r, c0, f + 1);
        SameBefore(s, r, c0, f - 1);
      }
      TagEndsBack(s, r, lit, LayerClose);
    }
  }

  lemma LayerCloseBack(s: string, r: string, c0: nat, from: nat)
    requires TagsClosed(s) && c0 < |s| && s[c0] == '<' && c0 <= |r| && r[..c0] == s[..c0] && from <= c0
    requires Find(r, LayerClose, c0, true).Some? ==> Find(s, LayerClose, c0, true).Some?
    ensures Find(r, LayerClose, from, true).Some? ==> Find(s, LayerClose, from, true).Some?
  {
    LayerCloseLike();
    CloseBack(s, r, c0, LayerClose, from);
  }

  lemma CloseEndIsFind(t: string, from: nat, close: string)
    ensures CloseEnd(t, from, close, true).Some? <==> Find(t, close, from, true).Some?
  {
  }

  lemma TagEndsBack(s: string, r: string, lit: string, close: string)
    requires TagWith(r, 6, lit, true) == TagWith(s, 6, lit, true)
    requires TagWith(s, 6, lit, true).Some? ==>
               var f := TagWith(s, 6, lit, true).value;
               r[f - 1] == s[f - 1] &&
               (Find(r, close, f + 1, true).Some? ==> Find(s, close, f + 1, true).Some?)
    ensures TagEnds(r, lit, close) ==> TagEnds(s, lit, close)
  {
    if TagWith(r, 6, lit, true).Some? {
      var f := TagWith(r, 6, lit, true).value;
      CloseEndIsFind(r, f + 1, close);
      CloseEndIsFind(s, f + 1, close);
    }
  }

  // ---------------------------------------------------------------------------
  // A cut, one match at a time
  // ---------------------------------------------------------------------------

  /** The scan keeps the text before the leftmost match, drops the match, and goes on after it. */
  lemma CutAtFirst(p: Pattern, s: string, k: nat, n: nat)
    requires FirstMatch(p, s, 0) == Some(k) && MatchLen(p, s[k..]) == Some(n)
    ensures 0 < n && k + n <= |s|
    ensures Cut(p, s) == s[..k] + Cut(p, s[k + n..])
  {
    RewriteAtFirstMatch(p, s, Literal(""), k, n);
    assert FillWith(Literal(""), p, s[k..k + n]) == [];
    assert s[..k] + [] == s[..k];
  }

  /** Where the scan resumes after the leftmost match in s[m..]: the index in s just past it. */
  function CutEnd(p: Pattern, s: string, m: nat): (e: nat)
    requires m <= |s| && FirstMatch(p, s[m..], 0).Some?
    ensures m < e <= |s|
  {
    var k := FirstMatch(p, s[m..], 0).value;
    m + k + MatchLen(p, s[m..][k..]).value
  }

  /** The cut of s[m..] keeps what comes before its leftmost match and goes on at CutEnd. */
  lemma CutStep(p: Pattern, s: string, m: nat) returns (k: nat)
    requires Opens(p) && m <= |s| && FirstMatch(p, s[m..], 0).Some?
    ensures m + k < CutEnd(p, s, m) && s[m + k] == '<'
    ensures Cut(p, s[m..]) == s[m..][..k] + Cut(p, s[CutEnd(p, s, m)..])
    ensures forall i :: m <= i < m + k ==> !MatchesAt(p, s, i)
  {
    var t := s[m..];
    k := FirstMatch(p, t, 0).value;
    var n := MatchLen(p, t[k..]).value;
    CutAtFirst(p, t, k, n);
    var e := CutEnd(p, s, m);
    assert e == m + k + n;
    assert t[k + n..] == s[e..];
    MatchOpens(p, t[k..]);
    assert t[k..][0] == t[k];
    NoMatchBeforeFirst(p, s, m);
  }

  lemma NoMatchBeforeFirst(p: Pattern, s: string, m: nat)
    requires m <= |s| && FirstMatch(p, s[m..], 0).Some?
    ensures forall i :: m <= i < m + FirstMatch(p, s[m..], 0).value ==> !MatchesAt(p, s, i)
  {
    forall i | m <= i < m + FirstMatch(p, s[m..], 0).value ensures !MatchesAt(p, s, i) {
      assert !MatchesAt(p, s[m..], i - m);
      NoMatchShifted(p, s, m, i);
    }
  }

  /** Without a match the cut leaves s[m..] as it is. */
  lemma CutNone(p: Pattern, s: string, m: nat)
    requires m <= |s| && FirstMatch(p, s[m..], 0).None?
    ensures Cut(p, s[m..]) == s[m..]
    ensures forall i :: m <= i < |s| ==> !MatchesAt(p, s, i)
  {
    CutWithoutMatch(p, s[m..]);
    forall i | m <= i < |s| ensures !MatchesAt(p, s, i) {
      NoMatchShifted(p, s, m, i);
    }
  }

  lemma NoMatchShifted(p: Pattern, s: string, m: nat, i: nat)
    requires m <= i && m <= |s| && !MatchesAt(p, s[m..], i - m)
    ensures !MatchesAt(p, s, i)
  {
    MatchesAtShift(p, s, m, i - m);
  }

  lemma LitAtShift(t: string, m: nat, j: nat, lit: string)
    requires m <= |t|
    ensures LitAt(t[m..], j, lit, true) <==> LitAt(t, m + j, lit, true)
  {
    if m + j + |lit| <= |t| {
      assert t[m..][j..j + |lit|] == t[m + j..m + j + |lit|];
    }
  }

  /** Searching a suffix from `from` is searching the whole text from `m + from`. */
  lemma FindInSuffix(t: string, m: nat, lit: string, from: nat)
    requires m <= |t|
    ensures Find(t[m..], lit, from, true).Some? <==> Find(t, lit, m + from, true).Some?
  {
    if Find(t[m..], lit, from, true).Some? {
      var v := Find(t[m..], lit, from, true).value;
      LitAtShift(t, m, v, lit);
    }
    if Find(t, lit, m + from, true).Some? {
      var v := Find(t, lit, m + from, true).value;
      LitAtShift(t, m, v - m, lit);
    }
  }

  /** An occurrence at or after `from` is found. */
  lemma FoundAt(t: string, lit: string, from: nat, j: nat)
    requires from <= j && LitAt(t, j, lit, true)
    ensures Find(t, lit, from, true).Some?
  {
  }

  /** What is found from a later index is found from an earlier one. */
  lemma FindLater(t: string, lit: string, a: nat, b: nat)
    requires a <= b
    ensures Find(t, lit, b, true).Some? ==> Find(t, lit, a, true).Some?
  {
    if Find(t, lit, b, true).Some? {
      assert LitAt(t, Find(t, lit, b, true).value, lit, true);
    }
  }

  /** Closed markup cut at a '<' and continued by closed markup is closed. */
  lemma ClosedJoin(s: string, k: nat, c: string)
    requires TagsClosed(s) && k < |s| && s[k] == '<' && TagsClosed(c)
    ensures TagsClosed(s[..k] + c)
  {
    var r := s[..k] + c;
    forall i: nat | OpenAt(r, i) ensures ClosedAt(r, i) {
      if i < k {
        assert r[i] == s[i];
        ClosedBeforeCut(s, i, k);
        var g := IndexOf(s, '>', i + 1).value;
        assert forall j :: 0 <= j < k ==> r[j] == s[j];
        IndexOfIs(r, '>', i + 1, g);
      } else {
        assert r[i] == c[i - k];
        assert OpenAt(c, i - k);
        ClosedAtShift(s[..k], c, i - k);
      }
    }
  }

  // ---------------------------------------------------------------------------
  // What a cut keeps
  // ---------------------------------------------------------------------------

  /** Cutting out matches that open with '<' keeps every tag closed. */
  lemma CutKeepsTagsClosed(p: Pattern, s: string)
    requires Opens(p) && TagsClosed(s)
    ensures TagsClosed(Cut(p, s))
  {
    CutKeepsTagsClosedFrom(p, s, 0);
    assert s[0..] == s;
  }

  lemma {:induction false} CutKeepsTagsClosedFrom(p: Pattern, s: string, m: nat)
    requires Opens(p) && TagsClosed(s) && m <= |s|
    ensures TagsClosed(Cut(p, s[m..]))
    decreases |s| - m
  {
    TagsClosedSuffix(s, m);
    if FirstMatch(p, s[m..], 0).None? {
      CutNone(p, s, m);
    } else {
      CutKeepsTagsClosedFrom(p, s, CutEnd(p, s, m));
      var k := CutStep(p, s, m);
      assert s[m..][k] == s[m + k];
      ClosedJoin(s[m..], k, Cut(p, s[CutEnd(p, s, m)..]));
    }
  }

  /** A closing tag found in the cut text was already in the text it was cut from. */
  lemma ClosesComeFromSource(p: Pattern, s: string, close: string)
    requires Opens(p) && TagsClosed(s) && CloseLike(close)
    ensures Find(Cut(p, s), close, 0, true).Some? ==> Find(s, close, 0, true).Some?
  {
    ClosesComeFromSourceFrom(p, s, 0, close);
    assert s[0..] == s;
  }

  lemma {:induction false} ClosesComeFromSourceFrom(p: Pattern, s: string, m: nat, close: string)
    requires Opens(p) && TagsClosed(s) && CloseLike(close) && m <= |s|
    ensures Find(Cut(p, s[m..]), close, 0, true).Some? ==> Find(s[m..], close, 0, true).Some?
    decreases |s| - m
  {
    TagsClosedSuffix(s, m);
    if FirstMatch(p, s[m..], 0).None? {
      CutNone(p, s, m);
    } else {
      var e := CutEnd(p, s, m);
      ClosesComeFromSourceFrom(p, s, e, close);
      var k := CutStep(p, s, m);
      CloseJoinAt(s, m, k, e, Cut(p, s[e..]), close);
    }
  }

  lemma CloseJoinAt(s: string, m: nat, k: nat, e: nat, c: string, close: string)
    requires m + k < e <= |s| && TagsClosed(s[m..]) && CloseLike(close) && s[m + k] == '<'
    requires Find(c, close, 0, true).Some? ==> Find(s[e..], close, 0, true).Some?
    ensures Find(s[m..][..k] + c, close, 0, true).Some? ==> Find(s[m..], close, 0, true).Some?
  {
    var t := s[m..];
    assert t[k] == s[m + k];
    assert t[e - m..] == s[e..];
    CloseJoin(t, c, k, e - m - k, close);
  }

  /** A closing tag in closed text cut at a '<' and continued by `c` is in the text, or in `c`. */
  lemma CloseJoin(s: string, c: string, k: nat, n: nat, close: string)
    requires TagsClosed(s) && CloseLike(close) && k < |s| && s[k] == '<' && k + n <= |s|
    requires Find(c, close, 0, true).Some? ==> Find(s[k + n..], close, 0, true).Some?
    ensures Find(s[..k] + c, close, 0, true).Some? ==> Find(s, close, 0, true).Some?
  {
    var r := s[..k] + c;
    assert r[k..] == c;
    assert r[..k] == s[..k];
    FindCarried(r, s, c, k, n, close);
    CloseBack(s, r, k, close, 0);
  }

  /** The patterns whose matches a cut cannot create: blocks that end at a closing tag or `/>`. */
  predicate Block(q: Pattern)
  {
    q.SceneBlock? || q.LayerBlock?
  }

  function CloseOf(q: Pattern): string
    requires Block(q)
  {
    if q.SceneBlock? then SceneClose else LayerClose
  }

  lemma CloseOfIsCloseLike(q: Pattern)
    requires Block(q)
    ensures CloseLike(CloseOf(q))
  {
    if q.SceneBlock? {
      SceneIsTagLike();
    } else {
      LayerCloseLike();
    }
  }

  lemma BlockBack(q: Pattern, s: string, r: string, c0: nat)
    requires Block(q)
    requires TagsClosed(s) && 1 <= c0 < |s| && s[c0] == '<' && c0 <= |r| && r[..c0] == s[..c0]
    requires Find(r, CloseOf(q), c0, true).Some? ==> Find(s, CloseOf(q), c0, true).Some?
    ensures MatchLen(q, r).Some? ==> MatchLen(q, s).Some?
  {
    match q
    case SceneBlock(id) => SceneBlockBack(id, s, r, c0);
    case LayerBlock(id) => LayerBlockBack(id, s, r, c0);
  }

  lemma MatchesAtShift(q: Pattern, s: string, m: nat, j: nat)
    requires m <= |s|
    ensures MatchesAt(q, s[m..], j) <==> MatchesAt(q, s, m + j)
  {
    if m + j < |s| {
      assert s[m..][j..] == s[m + j..];
    }
  }

  /** A text found after c0 in r, where r goes on with c, is found after c0 in s when c's finds come from s past c0 + n. */
  lemma FindCarried(r: string, s: string, c: string, c0: nat, n: nat, lit: string)
    requires c0 <= |r| && r[c0..] == c && c0 + n <= |s|
    requires Find(c, lit, 0, true).Some? ==> Find(s[c0 + n..], lit, 0, true).Some?
    ensures Find(r, lit, c0, true).Some? ==> Find(s, lit, c0, true).Some?
  {
    if Find(r, lit, c0, true).Some? {
      var v := Find(r, lit, c0, true).value;
      LitAtShift(r, c0, v - c0, lit);
      FoundAt(c, lit, 0, v - c0);
      var w := Find(s[c0 + n..], lit, 0, true).value;
      LitAtShift(s, c0 + n, w, lit);
      FoundAt(s, lit, c0, c0 + n + w);
    }
  }

  /**
   * Before the leftmost cut, a block match of the cut text would be a block
   * match of the text it was cut from, at the same index.
   */
  lemma BlockBeforeCut(q: Pattern, s: string, c: string, k: nat, n: nat, i: nat, rest: string)
    requires Block(q) && TagsClosed(s)
    requires i < k && 0 < n && k + n <= |s| && s[k] == '<' && rest == s[k + n..]
    requires Find(c, CloseOf(q), 0, true).Some? ==> Find(rest, CloseOf(q), 0, true).Some?
    ensures MatchesAt(q, s[..k] + c, i) ==> MatchesAt(q, s, i)
  {
    var r := s[..k] + c;
    assert |r| == k + |c|;
    var s' := s[i..];
    var r' := r[i..];
    var c0 := k - i;
    assert |r'| == c0 + |c|;
    TagsClosedSuffix(s, i);
    assert r'[..c0] == s'[..c0];
    assert s'[c0] == s[k];
    assert r'[c0..] == c;
    assert s'[c0 + n..] == s[k + n..];
    FindCarried(r', s', c, c0, n, CloseOf(q));
    BlockBack(q, s', r', c0);
  }

  lemma NoMatchInTail(q: Pattern, a: string, c: string, i: nat)
    requires |a| <= i && NoMatch(q, c)
    ensures !MatchesAt(q, a + c, i)
  {
    var r := a + c;
    if i < |r| {
      assert r[|a|..] == c;
      MatchesAtShift(q, r, |a|, i - |a|);
      assert !MatchesAt(q, c, i - |a|);
    }
  }

  /**
   * Cutting every match of p leaves no block match of q, when every block
   * match of q was a match of p: cut the blocks themselves, or cut something
   * else from text without such blocks.
   */
  lemma NoMatchAfterCut(p: Pattern, q: Pattern, s: string)
    requires Opens(p) && Block(q) && TagsClosed(s)
    requires forall i :: MatchesAt(q, s, i) ==> MatchesAt(p, s, i)
    ensures NoMatch(q, Cut(p, s))
  {
    NoMatchAfterCutFrom(p, q, s, 0);
    assert s[0..] == s;
  }

  lemma {:induction false} NoMatchAfterCutFrom(p: Pattern, q: Pattern, s: string, m: nat)
    requires Opens(p) && Block(q) && TagsClosed(s) && m <= |s|
    requires forall i :: MatchesAt(q, s, i) ==> MatchesAt(p, s, i)
    ensures NoMatch(q, Cut(p, s[m..]))
    decreases |s| - m
  {
    TagsClosedSuffix(s, m);
    if FirstMatch(p, s[m..], 0).None? {
      CutNone(p, s, m);
      forall j | 0 <= j < |s[m..]| ensures !MatchesAt(q, s[m..], j) {
        MatchesAtShift(q, s, m, j);
      }
    } else {
      var e := CutEnd(p, s, m);
      NoMatchAfterCutFrom(p, q, s, e);
      CloseOfIsCloseLike(q);
      ClosesComeFromSourceFrom(p, s, e, CloseOf(q));
      var k := CutStep(p, s, m);
      NoMatchStep(q, s, m, k, e, Cut(p, s[e..]));
    }
  }

  lemma NoMatchStep(q: Pattern, s: string, m: nat, k: nat, e: nat, c: string)
    requires Block(q) && m + k < e <= |s| && TagsClosed(s[m..]) && s[m + k] == '<'
    requires forall i :: m <= i < m + k ==> !MatchesAt(q, s, i)
    requires NoMatch(q, c)
    requires Find(c, CloseOf(q), 0, true).Some? ==> Find(s[e..], CloseOf(q), 0, true).Some?
    ensures NoMatch(q, s[m..][..k] + c)
  {
    forall i | 0 <= i < |s[m..][..k] + c| ensures !MatchesAt(q, s[m..][..k] + c, i) {
      JoinNoMatchAt(q, s, m, k, e, c, i);
    }
  }

  /**
   * One index of the joined text: before the cut a block match would have been
   * one of the text it was cut from; after it, one of `c`.
   */
  lemma JoinNoMatchAt(q: Pattern, s: string, m: nat, k: nat, e: nat, c: string, i: nat)
    requires Block(q) && m + k < e <= |s| && TagsClosed(s[m..]) && s[m + k] == '<'
    requires i < k ==> !MatchesAt(q, s, m + i)
    requires NoMatch(q, c)
    requires Find(c, CloseOf(q), 0, true).Some? ==> Find(s[e..], CloseOf(q), 0, true).Some?
    ensures !MatchesAt(q, s[m..][..k] + c, i)
  {
    if i < k {
      assert s[m..][k] == s[m + k];
      assert s[m..][k + (e - m - k)..] == s[e..];
      BlockBeforeCut(q, s[m..], c, k, e - m - k, i, s[e..]);
      MatchesAtShift(q, s, m, i);
    } else {
      NoMatchInTail(q, s[m..][..k], c, i);
    }
  }

  // ---------------------------------------------------------------------------
  // The controller's delete, end to end
  // ---------------------------------------------------------------------------

  /**
   * Deleting a scene removes its block and then the layers linked to it: after
   * both cuts no scene block named scene_ID and no layer linked to it is left,
   * and the markup's tags are still closed.
   */
  lemma RemoveSceneThenLayers(doc: string, id: string)
    requires TagsClosed(doc)
    ensures NoMatch(SceneBlock(id), ControllerRemoveLayer(ControllerRemoveScene(doc, id), id))
    ensures NoMatch(LayerBlock(id), ControllerRemoveLayer(ControllerRemoveScene(doc, id), id))
    ensures TagsClosed(ControllerRemoveLayer(ControllerRemoveScene(doc, id), id))
  {
    var mid := ControllerRemoveScene(doc, id);
    NoMatchAfterCut(SceneBlock(id), SceneBlock(id), doc);
    CutKeepsTagsClosed(SceneBlock(id), doc);
    NoMatchAfterCut(LayerBlock(id), LayerBlock(id), mid);
    NoMatchAfterCut(LayerBlock(id), SceneBlock(id), mid);
    CutKeepsTagsClosed(LayerBlock(id), mid);
  }

  /** Removing a scene block twice is removing it once. */
  lemma RemoveSceneIdempotent(doc: string, id: string)
    requires TagsClosed(doc)
    ensures ControllerRemoveScene(ControllerRemoveScene(doc, id), id) == ControllerRemoveScene(doc, id)
  {
    NoMatchAfterCut(SceneBlock(id), SceneBlock(id), doc);
    CutWithoutMatch(SceneBlock(id), ControllerRemoveScene(doc, id));
  }

  /** Removing a scene's layers twice is removing them once. */
  lemma RemoveLayerIdempotent(doc: string, id: string)
    requires TagsClosed(doc)
    ensures ControllerRemoveLayer(ControllerRemoveLayer(doc, id), id) == ControllerRemoveLayer(doc, id)
  {
    NoMatchAfterCut(LayerBlock(id), LayerBlock(id), doc);
    CutWithoutMatch(LayerBlock(id), ControllerRemoveLayer(doc, id));
  }

  /** A document holding neither a scene block nor a layer of scene_ID is saved as it was. */
  lemma RemoveWithoutElements(doc: string, id: string)
    requires NoMatch(SceneBlock(id), doc) && NoMatch(LayerBlock(id), doc)
    ensures ControllerRemoveLayer(ControllerRemoveScene(doc, id), id) == doc
  {
    CutWithoutMatch(SceneBlock(id), doc);
    CutWithoutMatch(LayerBlock(id), doc);
  }

  // ---------------------------------------------------------------------------
  // The service's looser copies, on two small documents
  // ---------------------------------------------------------------------------

  /** The block of one scene, `<scene name="scene_NAME"></scene>`. */
  function SceneElement(name: string): string
  {
    SceneHead + name + "\"></scene>"
  }

  /** Scene ids are numbers. */
  predicate Digits(s: string)
  {
    forall k :: 0 <= k < |s| ==> IsDigit(s[k])
  }

  /** The element's tag up to its scene id: a '<' and text without '<' or '>'. */
  const SceneHead: string := "<" + SceneHeadRest
  const SceneHeadRest: string := "scene name=\"scene_"

  lemma SceneHeadChars()
    ensures |SceneHead| == 19 && SceneHead[..6] == "<scene" && SceneHead[6] == ' ' && SceneHead[8] == 'a'
    ensures SceneHead[7..] == "name=\"scene_" && SceneHead[13..] == "scene_"
    ensures forall k :: 1 <= k < 19 ==> SceneHead[k] != '<' && SceneHead[k] != '>'
  {
    assert '<' !in SceneHeadRest && '>' !in SceneHeadRest;
    forall k | 1 <= k < 19 ensures SceneHead[k] != '<' && SceneHead[k] != '>' {
      assert SceneHead[k] == SceneHeadRest[k - 1];
    }
  }

  lemma SceneElementParts(name: string, t: string)
    requires t == SceneElement(name)
    ensures |t| == 29 + |name|
    ensures t[..6] == "<scene" && t[6] == ' ' && t[8] == 'a'
    ensures t[7..19] == "name=\"scene_" && t[13..19] == "scene_"
    ensures t[19..19 + |name|] == name
    ensures t[19 + |name|] == '"' && t[20 + |name|] == '>'
    ensures t[21 + |name|..] == "</scene>"
    ensures forall k :: 1 <= k < 19 ==> t[k] != '<' && t[k] != '>'
  {
    SceneHeadChars();
    var h := SceneHead;
    assert t[..19] == h;
    forall k | 0 <= k < 19 ensures t[k] == h[k] {
      assert t[k] == t[..19][k];
    }
  }

  /** Case-insensitive occurrence from an exact one. */
  lemma LitAtExact(s: string, i: nat, lit: string)
    requires i + |lit| <= |s| && s[i..i + |lit|] == lit
    ensures LitAt(s, i, lit, true)
  {
  }

  lemma SceneElementTag(name: string, t: string)
    requires t == SceneElement(name) && Digits(name)
    ensures IndexOf(t, '>', 6) == Some(20 + |name|)
  {
    SceneElementParts(name, t);
    forall k | 6 <= k < 20 + |name| ensures t[k] != '>' {
      if 19 <= k < 19 + |name| {
        assert t[k] == name[k - 19];
      }
    }
    IndexOfIs(t, '>', 6, 20 + |name|);
  }

  /** The only '<' of the element are the two that open its tags. */
  lemma SceneElementOpens(name: string, t: string, i: nat)
    requires t == SceneElement(name) && Digits(name) && i < |t|
    ensures t[i] == '<' ==> i == 0 || i == 21 + |name|
  {
    SceneElementParts(name, t);
    if 19 <= i < 19 + |name| {
      assert t[i] == name[i - 19];
    } else if 21 + |name| < i {
      assert t[i] == t[21 + |name|..][i - 21 - |name|];
    }
  }

  /** The element is the block of scene NAME: the controller's pattern for NAME matches it whole. */
  lemma SceneElementIsBlock(name: string, t: string)
    requires t == SceneElement(name) && Digits(name)
    ensures SceneBlockLen(name, t) == Some(|t|)
  {
    SceneElementParts(name, t);
    SceneElementTag(name, t);
    var f := 20 + |name|;
    LitAtExact(t, 0, "<scene");
    var lit := SceneNameLit(name);
    assert t[7..7 + |lit|] == lit;
    LitAtExact(t, 7, lit);
    assert Find(t, lit, 6, true).value <= 7;
    assert TagWith(t, 6, lit, true) == Some(f);
    LitAtExact(t, f + 1, SceneClose);
    FindIs(t, SceneClose, f + 1, true, f + 1);
  }

  /** The service's pattern for ID finds `scene_ID` inside the tag of a scene whose id starts with ID. */
  lemma SceneElementRef(id: string, name: string, t: string)
    requires t == SceneElement(name) && Digits(name) && |id| <= |name| && name[..|id|] == id
    ensures RefEnd(t, 6, "scene_" + id, true).Some?
    ensures RefEnd(t, 6, "scene_" + id, true).value <= 21 + |name|
    ensures LitAt(t, 0, "<scene", true)
  {
    LitAtExact(t, 0, "<scene");
    SceneElementParts(name, t);
    SceneElementTag(name, t);
    var lit := "scene_" + id;
    assert t[13..13 + |lit|] == lit;
    LitAtExact(t, 13, lit);
    assert Find(t, lit, 6, true).value <= 13;
  }

  /** The controller's pattern for ID does not match the block of scene ID followed by one more digit. */
  lemma SceneElementNotBlock(id: string, d: char, t: string)
    requires t == SceneElement(id + [d]) && Digits(id + [d])
    ensures SceneBlockLen(id, t).None?
  {
    var name := id + [d];
    SceneElementParts(name, t);
    SceneElementTag(name, t);
    var lit := SceneNameLit(id);
    forall j | 6 <= j && j + |lit| <= 20 + |name| ensures !LitAt(t, j, lit, true) {
      if j == 7 {
        assert t[19 + |id|] == d;
        LitCharMismatch(t, 7, lit, 12 + |id|);
      } else {
        LitCharMismatch(t, j, lit, 0);
      }
    }
    NotInRegion(t, lit, 6, 20 + |name|);
  }

  /** Text with no occurrence of `lit` inside t[lo..hi] does not hold it there. */
  lemma NotInRegion(t: string, lit: string, lo: nat, hi: nat)
    requires forall j :: lo <= j && j + |lit| <= hi ==> !LitAt(t, j, lit, true)
    ensures !InRegion(t, lit, lo, hi, true)
  {
  }

  /** The service's pattern for ID, at the start of the element of a longer id, takes the whole element. */
  lemma SceneElementRefWhole(id: string, name: string, t: string)
    requires t == SceneElement(name) && Digits(name) && |id| <= |name| && name[..|id|] == id
    ensures SceneRefLen(id, t) == Some(|t|)
  {
    SceneElementRef(id, name, t);
    var e := RefEnd(t, 6, "scene_" + id, true).value;
    SceneElementClose(name, t, e);
  }

  /** Searched for from inside the opening tag, the first `</scene>` is the element's own, which ends it. */
  lemma SceneElementClose(name: string, t: string, e: nat)
    requires t == SceneElement(name) && Digits(name) && e <= 21 + |name|
    ensures CloseEnd(t, e, "</scene>", true) == Some(|t|)
  {
    var c := 21 + |name|;
    forall j | e <= j < c ensures !LitAt(t, j, SceneClose, true) {
      SceneElementNoCloseAt(name, t, j);
    }
    SceneElementParts(name, t);
    LitAtExact(t, c, SceneClose);
    FindIs(t, SceneClose, e, true, c);
  }

  /** Inside the opening tag no `</scene>` starts. */
  lemma SceneElementNoCloseAt(name: string, t: string, j: nat)
    requires t == SceneElement(name) && Digits(name) && j < 21 + |name|
    ensures !LitAt(t, j, SceneClose, true)
  {
    SceneElementParts(name, t);
    SceneElementOpens(name, t, j);
    if j == 0 {
      LitCharMismatch(t, j, SceneClose, 1);
    } else {
      LitCharMismatch(t, j, SceneClose, 0);
    }
  }

  /** No block of scene ID starts anywhere in the element of scene ID followed by one more digit. */
  lemma SceneElementNoBlock(id: string, d: char, t: string)
    requires t == SceneElement(id + [d]) && Digits(id + [d])
    ensures NoMatch(SceneBlock(id), t)
  {
    forall i | 0 <= i < |t| ensures !MatchesAt(SceneBlock(id), t, i) {
      SceneElementNoBlockAt(id, d, t, i);
    }
  }

  lemma SceneElementNoBlockAt(id: string, d: char, t: string, i: nat)
    requires t == SceneElement(id + [d]) && Digits(id + [d]) && i < |t|
    ensures !MatchesAt(SceneBlock(id), t, i)
  {
    var name := id + [d];
    MatchOpens(SceneBlock(id), t[i..]);
    SceneElementOpens(name, t, i);
    if i == 0 {
      SceneElementNotBlock(id, d, t);
      assert t[i..] == t;
    } else if i == 21 + |name| {
      SceneElementParts(name, t);
      assert t[i..] == SceneClose;
      LitCharMismatch(t[i..], 0, "<scene", 1);
    }
  }

  /**
   * Deleting scene ID through the service also deletes the block of scene ID
   * followed by a digit (scene_12 for scene 1); the controller keeps it.
   */
  lemma ServiceRemovesLongerIds(id: string, d: char)
    requires Digits(id + [d])
    ensures ServiceRemoveScene(SceneElement(id + [d]), id) == ""
    ensures ControllerRemoveScene(SceneElement(id + [d]), id) == SceneElement(id + [d])
  {
    var t := SceneElement(id + [d]);
    assert (id + [d])[..|id|] == id;
    SceneElementRefWhole(id, id + [d], t);
    CutWhole(SceneRef(id), t);
    SceneElementNoBlock(id, d, t);
    CutWithoutMatch(SceneBlock(id), t);
  }

  /** A text that one match covers whole is cut to nothing. */
  lemma CutWhole(p: Pattern, t: string)
    requires MatchLen(p, t) == Some(|t|)
    ensures Cut(p, t) == []
  {
    CutFirstThenNone(p, t, |t|);
  }

  /** A match at the start followed by text without matches: only that match is cut. */
  lemma CutFirstThenNone(p: Pattern, t: string, n: nat)
    requires MatchLen(p, t) == Some(n) && NoMatch(p, t[n..])
    ensures Cut(p, t) == t[n..]
  {
    MatchAtStart(p, t, n);
    CutAtFirst(p, t, 0, n);
    CutWithoutMatch(p, t[n..]);
    assert t[..0] + t[n..] == t[n..];
  }

  /** A match at index 0 is the leftmost. */
  lemma MatchAtStart(p: Pattern, t: string, n: nat)
    requires MatchLen(p, t) == Some(n)
    ensures FirstMatch(p, t, 0) == Some(0) && MatchLen(p, t[0..]) == Some(n)
  {
    assert t[0..] == t;
    FirstMatchIs(p, t, 0, 0);
  }

  /** A self-closing hotspot layer linked to scene ID. */
  function LinkedSpot(id: string): string
  {
    SpotHead + id + "\"/>"
  }

  /** An empty layer block that links to no scene. */
  const EmptyLayer: string := "<layer></layer>"

  /** The hotspot's tag up to its scene id: a '<' and text without '<' or '>'. */
  const SpotHead: string := "<" + SpotHeadRest
  const SpotHeadRest: string := "layer linkedscene=\"scene_"

  lemma SpotHeadChars()
    ensures |SpotHead| == 26 && SpotHead[..6] == "<layer" && SpotHead[6] == ' '
    ensures SpotHead[7..] == "linkedscene=\"scene_"
    ensures forall k :: 1 <= k < 26 ==> SpotHead[k] != '<' && SpotHead[k] != '>'
  {
    assert '<' !in SpotHeadRest && '>' !in SpotHeadRest;
    forall k | 1 <= k < 26 ensures SpotHead[k] != '<' && SpotHead[k] != '>' {
      assert SpotHead[k] == SpotHeadRest[k - 1];
    }
  }

  lemma SpotParts(id: string, t: string)
    requires t == LinkedSpot(id) + EmptyLayer
    ensures |t| == 44 + |id| && |LinkedSpot(id)| == 29 + |id|
    ensures t[..6] == "<layer" && t[6] == ' '
    ensures t[7..26] == "linkedscene=\"scene_"
    ensures t[26..26 + |id|] == id
    ensures t[26 + |id|] == '"' && t[27 + |id|] == '/' && t[28 + |id|] == '>'
    ensures t[29 + |id|..] == EmptyLayer
    ensures forall k :: 1 <= k < 26 ==> t[k] != '<' && t[k] != '>'
  {
    SpotHeadChars();
    var h := SpotHead;
    assert t == h + id + "\"/>" + EmptyLayer;
    assert t[..26] == h;
    forall k | 0 <= k < 26 ensures t[k] == h[k] {
      assert t[k] == t[..26][k];
    }
  }

  /** The '<' of a hotspot followed by an empty layer: the three that open tags. */
  lemma SpotOpens(id: string, t: string, i: nat)
    requires t == LinkedSpot(id) + EmptyLayer && Digits(id) && i < |t|
    ensures t[i] == '<' ==> i == 0 || i == 29 + |id| || i == 36 + |id|
  {
    SpotParts(id, t);
    if 26 <= i < 26 + |id| {
      assert t[i] == id[i - 26];
    } else if 29 + |id| <= i {
      assert t[i] == EmptyLayer[i - 29 - |id|];
    }
  }

  lemma SpotTag(id: string, t: string)
    requires t == LinkedSpot(id) + EmptyLayer && Digits(id)
    ensures IndexOf(t, '>', 6) == Some(28 + |id|)
    ensures LitAt(t, 0, "<layer", true) && LitAt(t, 7, LinkedLit(id), true)
  {
    SpotParts(id, t);
    forall k | 6 <= k < 28 + |id| ensures t[k] != '>' {
      if 26 <= k < 26 + |id| {
        assert t[k] == id[k - 26];
      }
    }
    IndexOfIs(t, '>', 6, 28 + |id|);
    LitAtExact(t, 0, "<layer");
    assert t[7..7 + |LinkedLit(id)|] == LinkedLit(id);
    LitAtExact(t, 7, LinkedLit(id));
  }

  /** The service's pattern takes the hotspot and runs on through the next layer's `</layer>`. */
  lemma SpotRefWhole(id: string, t: string)
    requires t == LinkedSpot(id) + EmptyLayer && Digits(id)
    ensures LayerRefLen(id, t) == Some(|t|)
  {
    SpotRef(id, t);
    SpotClose(id, t, RefEnd(t, 6, LinkedLit(id), true).value);
  }

  /** The service's pattern finds the link inside the hotspot's tag. */
  lemma SpotRef(id: string, t: string)
    requires t == LinkedSpot(id) + EmptyLayer && Digits(id)
    ensures RefEnd(t, 6, LinkedLit(id), true).Some?
    ensures RefEnd(t, 6, LinkedLit(id), true).value <= 28 + |id|
    ensures LitAt(t, 0, "<layer", true)
  {
    SpotTag(id, t);
    assert Find(t, LinkedLit(id), 6, true).value <= 7;
  }

  /** Searched for from inside the hotspot's tag, the first `</layer>` is the empty layer's, which ends the text. */
  lemma SpotClose(id: string, t: string, e: nat)
    requires t == LinkedSpot(id) + EmptyLayer && Digits(id) && 7 <= e <= 28 + |id|
    ensures CloseEnd(t, e, "</layer>", true) == Some(|t|)
  {
    var c := 36 + |id|;
    forall j | e <= j < c ensures !LitAt(t, j, LayerClose, true) {
      SpotNoCloseAt(id, t, j);
    }
    SpotParts(id, t);
    assert t[c..] == LayerClose;
    LitAtExact(t, c, LayerClose);
    FindIs(t, LayerClose, e, true, c);
  }

  /** Before the empty layer's own `</layer>` no `</layer>` starts after the hotspot's name. */
  lemma SpotNoCloseAt(id: string, t: string, j: nat)
    requires t == LinkedSpot(id) + EmptyLayer && Digits(id) && 7 <= j < 36 + |id|
    ensures !LitAt(t, j, LayerClose, true)
  {
    SpotParts(id, t);
    if t[j] == '<' {
      SpotOpens(id, t, j);
      assert t[j + 1] == EmptyLayer[1];
      LitCharMismatch(t, j, LayerClose, 1);
    } else {
      LitCharMismatch(t, j, LayerClose, 0);
    }
  }

  /** The controller's pattern takes the hotspot alone, by its self-closing alternative. */
  lemma SpotBlock(id: string, t: string)
    requires t == LinkedSpot(id) + EmptyLayer && Digits(id)
    ensures LayerBlockLen(id, t) == Some(29 + |id|)
  {
    SpotParts(id, t);
    SpotTag(id, t);
    assert StripPcreSpace(id) == id;
    var lit := LinkedLit(id);
    assert Find(t, lit, 6, true).value <= 7;
    assert TagWith(t, 6, lit, true) == Some(28 + |id|);
  }

  /** The empty layer links to no scene: no layer pattern matches in it. */
  lemma EmptyLayerNoBlock(id: string)
    ensures NoMatch(LayerBlock(id), EmptyLayer)
  {
    forall i | 0 <= i < |EmptyLayer| ensures !MatchesAt(LayerBlock(id), EmptyLayer, i) {
      EmptyLayerNoBlockAt(id, i);
    }
  }

  lemma EmptyLayerNoBlockAt(id: string, i: nat)
    requires i < |EmptyLayer|
    ensures !MatchesAt(LayerBlock(id), EmptyLayer, i)
  {
    var u := EmptyLayer;
    MatchOpens(LayerBlock(id), u[i..]);
    if i == 0 {
      assert u[i..] == u;
      IndexOfIs(u, '>', 6, 6);
      assert !InRegion(u, LinkedLit(StripPcreSpace(id)), 6, 6, true);
    } else if i == 7 {
      LitCharMismatch(u[i..], 0, "<layer", 1);
    }
  }

  /**
   * Deleting scene ID's layers through the service, when its hotspot is a
   * self-closing layer, also deletes the next layer up to that layer's
   * `</layer>`; the controller deletes the hotspot alone.
   */
  lemma ServiceSwallowsNextLayer(id: string)
    requires Digits(id)
    ensures ServiceRemoveLayer(LinkedSpot(id) + EmptyLayer, id) == ""
    ensures ControllerRemoveLayer(LinkedSpot(id) + EmptyLayer, id) == EmptyLayer
  {
    SpotServiceCut(id, LinkedSpot(id) + EmptyLayer);
    SpotControllerCut(id, LinkedSpot(id) + EmptyLayer);
  }

  lemma SpotServiceCut(id: string, t: string)
    requires t == LinkedSpot(id) + EmptyLayer && Digits(id)
    ensures Cut(LayerRef(id), t) == []
  {
    SpotRefWhole(id, t);
    CutWhole(LayerRef(id), t);
  }

  lemma SpotControllerCut(id: string, t: string)
    requires t == LinkedSpot(id) + EmptyLayer && Digits(id)
    ensures Cut(LayerBlock(id), t) == EmptyLayer
  {
    SpotParts(id, t);
    SpotBlock(id, t);
    EmptyLayerNoBlock(id);
    CutFirstThenNone(LayerBlock(id), t, 29 + |id|);
  }
}
