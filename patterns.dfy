/**
 * The regular expressions the tour-document editors run, each as an explicit
 * matcher over the rest of the document from a candidate start, and the one
 * scanning engine behind preg_replace (every match, left to right), its
 * single-replacement form and preg_replace_callback.
 *
 * Conventions shared by the matchers:
 *  - `[^>]*LIT[^>]*>` means LIT lies inside the tag, which ends at the first
 *    '>' after the tag name;
 *  - `.*?CLOSE` with the `s` flag means up to the nearest CLOSE;
 *  - the `i` flag compares ASCII letters without case, the id included;
 *  - `\b` after `<layer` asks for a next character that is not a word character.
 */
module Patterns {
  import opened Text

  /** The patterns the controller, the pipeline service and the job use on tour.xml. */
  datatype Pattern =
      /** controller removeSceneFromXml: `<scene[^>]*name="scene_ID"[^>]*>.*?</scene>\s*`, flags i s */
    | SceneBlock(id: string)
      /** controller updateSceneMetaInXml: `(<scene[^>]*name="scene_ID"[^>]*)(>)`, flags i s */
    | SceneTag(id: string)
      /** service removeSceneFromXml: `<scene[^>]*scene_ID.*?</scene>`, flags i s */
    | SceneRef(id: string)
      /** controller removeLayerFromXml: a self-closing `<layer\b...linkedscene="scene_ID".../>`, else the block to `</layer>`; flags i s x */
    | LayerBlock(id: string)
      /** controller updateLayerMetaInXml: `<layer[^>]*linkedscene="scene_ID"[^>]*>.*?</layer>`, flags i s */
    | LinkedLayer(id: string)
      /** service removeLayerFromXml: `<layer[^>]*linkedscene="scene_ID".*?</layer>`, flags i s */
    | LayerRef(id: string)
      /** the injectors' anchor: `(<layer\b[^>]*name="NAME"[^>]*>)`, flag i */
    | Anchor(name: string)
      /** an attribute rewrite: `NAME="[^"]*"`, case-sensitive */
    | Attr(name: string)
      /** the thumbnail's text label: `<layer[^>]*type="text"[^>]*text="[^"]*"`, case-sensitive */
    | TextLabel

  function SceneNameLit(id: string): string { "name=\"scene_" + id + "\"" }
  function LinkedLit(id: string): string { "linkedscene=\"scene_" + id + "\"" }
  function AnchorLit(name: string): string { "name=\"" + name + "\"" }

  /** What the `x` flag leaves of the quoted id: its unescaped white space is ignored. */
  function StripPcreSpace(s: string): (r: string)
    ensures forall i :: 0 <= i < |r| ==> !IsPcreSpace(r[i])
    ensures |r| <= |s|
    ensures (forall i :: 0 <= i < |s| ==> !IsPcreSpace(s[i])) ==> r == s
  {
    if s == [] then []
    else (if IsPcreSpace(s[0]) then [] else [s[0]]) + StripPcreSpace(s[1..])
  }

  // ---------------------------------------------------------------------------
  // Building blocks
  // ---------------------------------------------------------------------------

  /** `lit` lies wholly inside t[lo..hi]. */
  predicate InRegion(t: string, lit: string, lo: nat, hi: nat, ci: bool)
  {
    match Find(t, lit, lo, ci)
    case Some(l) => l + |lit| <= hi
    case None => false
  }

  lemma InRegionMeans(t: string, lit: string, lo: nat, hi: nat, ci: bool)
    ensures InRegion(t, lit, lo, hi, ci) <==> exists l :: lo <= l && l + |lit| <= hi && LitAt(t, l, lit, ci)
  {
  }

  /** `[^>]*LIT[^>]*>` read from index `open`: the index of the '>' closing a tag that holds LIT. */
  function TagWith(t: string, open: nat, lit: string, ci: bool): (f: Option<nat>)
    ensures f.Some? ==> open + |lit| <= f.value < |t| && t[f.value] == '>'
    ensures f.Some? ==> forall j :: open <= j < f.value ==> t[j] != '>'
  {
    match IndexOf(t, '>', open)
    case None => None
    case Some(f) => if InRegion(t, lit, open, f, ci) then Some(f) else None
  }

  /** `[^>]*LIT` read from index `open`: the end of the leftmost LIT when no '>' comes before it. */
  function RefEnd(t: string, open: nat, lit: string, ci: bool): (e: Option<nat>)
    ensures e.Some? ==> open + |lit| <= e.value <= |t| && LitAt(t, e.value - |lit|, lit, ci)
  {
    match Find(t, lit, open, ci)
    case None => None
    case Some(l) =>
      match IndexOf(t, '>', open)
      case Some(g) => if g < l then None else Some(l + |lit|)
      case None => Some(l + |lit|)
  }

  /** `.*?CLOSE` from index `from` (the `s` flag lets `.` cross lines): the end of the nearest CLOSE. */
  function CloseEnd(t: string, from: nat, close: string, ci: bool): (e: Option<nat>)
    ensures e.Some? ==> from + |close| <= e.value <= |t| && LitAt(t, e.value - |close|, close, ci)
  {
    match Find(t, close, from, ci)
    case None => None
    case Some(c) => Some(c + |close|)
  }

  /** `\s*` from index `from`: the end of the run of PCRE white space. */
  function SkipSpace(t: string, from: nat): (e: nat)
    requires from <= |t|
    ensures from <= e <= |t|
    ensures forall j :: from <= j < e ==> IsPcreSpace(t[j])
    ensures e == |t| || !IsPcreSpace(t[e])
    decreases |t| - from
  {
    if from == |t| || !IsPcreSpace(t[from]) then from else SkipSpace(t, from + 1)
  }

  /** `<layer\b` at the start: the tag name followed by a non-word character. */
  predicate LayerOpenB(t: string)
  {
    LitAt(t, 0, "<layer", true) && |t| > 6 && !IsWordChar(t[6])
  }

  /** The largest index m in [lo, hi - 6] where `text="` starts and a '"' follows at or after m + 6. */
  function LastLabel(t: string, lo: nat, hi: nat): (m: Option<nat>)
    requires hi <= |t|
    ensures m.Some? ==> lo <= m.value && m.value + 6 <= hi && LitAt(t, m.value, "text=\"", false)
    ensures m.Some? ==> IndexOf(t, '"', m.value + 6).Some?
    decreases hi
  {
    if hi < lo + 6 then None
    else if LitAt(t, hi - 6, "text=\"", false) && IndexOf(t, '"', hi).Some? then Some(hi - 6)
    else LastLabel(t, lo, hi - 1)
  }

  /** `<scene[^>]*name="scene_ID"[^>]*>.*?</scene>\s*` with flags i and s. */
  function SceneBlockLen(id: string, t: string): (n: Option<nat>)
    ensures n.Some? ==> 0 < n.value <= |t|
  {
    if !LitAt(t, 0, "<scene", true) then None
    else match TagWith(t, 6, SceneNameLit(id), true)
      case None => None
      case Some(f) =>
        match CloseEnd(t, f + 1, "</scene>", true)
        case None => None
        case Some(e) => Some(SkipSpace(t, e))
  }

  /** `(<scene[^>]*name="scene_ID"[^>]*)(>)` with flags i and s: the opening tag. */
  function SceneTagLen(id: string, t: string): (n: Option<nat>)
    ensures n.Some? ==> 6 < n.value <= |t| && t[n.value - 1] == '>'
  {
    if !LitAt(t, 0, "<scene", true) then None
    else match TagWith(t, 6, SceneNameLit(id), true)
      case None => None
      case Some(f) => Some(f + 1)
  }

  /** `<scene[^>]*scene_ID.*?</scene>` with flags i and s. */
  function SceneRefLen(id: string, t: string): (n: Option<nat>)
    ensures n.Some? ==> 0 < n.value <= |t|
  {
    if !LitAt(t, 0, "<scene", true) then None
    else match RefEnd(t, 6, "scene_" + id, true)
      case None => None
      case Some(l) => CloseEnd(t, l, "</scene>", true)
  }

  /**
   * The two alternatives of `<layer\b[^>]*linkedscene="scene_ID"[^>]*\/>` and
   * `<layer\b[^>]*linkedscene="scene_ID"[^>]*>(?:.*?)<\/layer>` with flags i, s
   * and x: the self-closing tag when the tag ends in "/>", else the block.
   */
  function LayerBlockLen(id: string, t: string): (n: Option<nat>)
    ensures n.Some? ==> 0 < n.value <= |t|
  {
    if !LayerOpenB(t) then None
    else match TagWith(t, 6, LinkedLit(StripPcreSpace(id)), true)
      case None => None
      case Some(f) => if t[f - 1] == '/' then Some(f + 1) else CloseEnd(t, f + 1, "</layer>", true)
  }

  /** `<layer[^>]*linkedscene="scene_ID"[^>]*>.*?</layer>` with flags i and s. */
  function LinkedLayerLen(id: string, t: string): (n: Option<nat>)
    ensures n.Some? ==> 0 < n.value <= |t|
  {
    if !LitAt(t, 0, "<layer", true) then None
    else match TagWith(t, 6, LinkedLit(id), true)
      case None => None
      case Some(f) => CloseEnd(t, f + 1, "</layer>", true)
  }

  /** `<layer[^>]*linkedscene="scene_ID".*?</layer>` with flags i and s. */
  function LayerRefLen(id: string, t: string): (n: Option<nat>)
    ensures n.Some? ==> 0 < n.value <= |t|
  {
    if !LitAt(t, 0, "<layer", true) then None
    else match RefEnd(t, 6, LinkedLit(id), true)
      case None => None
      case Some(l) => CloseEnd(t, l, "</layer>", true)
  }

  /** `(<layer\b[^>]*name="NAME"[^>]*>)` with flag i: the anchor's opening tag. */
  function AnchorLen(name: string, t: string): (n: Option<nat>)
    ensures n.Some? ==> 7 < n.value <= |t| && t[n.value - 1] == '>'
  {
    if !LayerOpenB(t) then None
    else match TagWith(t, 6, AnchorLit(name), true)
      case None => None
      case Some(f) => Some(f + 1)
  }

  /** `NAME="[^"]*"`, case-sensitive. */
  function AttrLen(name: string, t: string): (n: Option<nat>)
    ensures n.Some? ==> |name| + 2 < n.value <= |t|
  {
    if !LitAt(t, 0, name + "=\"", false) then None
    else match IndexOf(t, '"', |name| + 2)
      case None => None
      case Some(q) => Some(q + 1)
  }

  /**
   * `<layer[^>]*type="text"[^>]*text="[^"]*"`, case-sensitive. The greedy
   * `[^>]*` runs settle on the last `text="` of the tag that follows some
   * `type="text"` and is itself followed by a quote.
   */
  function TextLabelLen(t: string): (n: Option<nat>)
    ensures n.Some? ==> 0 < n.value <= |t|
  {
    if !LitAt(t, 0, "<layer", false) then None
    else
      var f := match IndexOf(t, '>', 6) case Some(g) => g case None => |t|;
      match Find(t, "type=\"text\"", 6, false)
      case None => None
      case Some(l) =>
        if l + 11 > f then None
        else match LastLabel(t, l + 11, f)
          case None => None
          case Some(m) =>
            match IndexOf(t, '"', m + 6)
            case None => None
            case Some(q) => Some(q + 1)
  }

  /** The length of the match of `p` at the start of `t`, if it matches there. */
  function MatchLen(p: Pattern, t: string): (n: Option<nat>)
    ensures n.Some? ==> 0 < n.value <= |t|
  {
    match p
    case SceneBlock(id) => SceneBlockLen(id, t)
    case SceneTag(id) => SceneTagLen(id, t)
    case SceneRef(id) => SceneRefLen(id, t)
    case LayerBlock(id) => LayerBlockLen(id, t)
    case LinkedLayer(id) => LinkedLayerLen(id, t)
    case LayerRef(id) => LayerRefLen(id, t)
    case Anchor(name) => AnchorLen(name, t)
    case Attr(name) => AttrLen(name, t)
    case TextLabel => TextLabelLen(t)
  }

  /** A match of `p` starts at index k of `s`. */
  predicate MatchesAt(p: Pattern, s: string, k: nat)
  {
    k < |s| && MatchLen(p, s[k..]).Some?
  }

  /** preg_match: the leftmost index at or after `from` where `p` matches. */
  function FirstMatch(p: Pattern, s: string, from: nat): (k: Option<nat>)
    ensures k.Some? ==> from <= k.value && MatchesAt(p, s, k.value)
    ensures forall j :: from <= j && (k.None? || j < k.value) ==> !MatchesAt(p, s, j)
    decreases |s| - from
  {
    if from >= |s| then None
    else if MatchesAt(p, s, from) then Some(from)
    else FirstMatch(p, s, from + 1)
  }

  /** preg_match finds a match with none before it. */
  lemma {:induction false} FirstMatchIs(p: Pattern, s: string, from: nat, k: nat)
    requires from <= k && MatchesAt(p, s, k)
    requires forall j :: from <= j < k ==> !MatchesAt(p, s, j)
    ensures FirstMatch(p, s, from).Some? && FirstMatch(p, s, from).value == k
    decreases k - from
  {
    if from < k {
      FirstMatchIs(p, s, from + 1, k);
    }
  }

  /** Whether a tag opened at `open` holds LIT depends only on the text up to the '>' closing it. */
  lemma TagWithIsLocal(t1: string, t2: string, m: nat, open: nat, lit: string, ci: bool)
    requires m <= |t1| && m <= |t2| && t1[..m] == t2[..m]
    requires IndexOf(t1, '>', open).Some? && IndexOf(t1, '>', open).value < m
    ensures IndexOf(t2, '>', open) == IndexOf(t1, '>', open)
    ensures TagWith(t1, open, lit, ci) == TagWith(t2, open, lit, ci)
  {
    var f := IndexOf(t1, '>', open).value;
    assert t2[f] == t1[f];
    assert forall j :: open <= j < f ==> t2[j] == t1[j];
    assert IndexOf(t2, '>', open).Some? && IndexOf(t2, '>', open).value == f;
    forall l | open <= l && l + |lit| <= f ensures LitAt(t1, l, lit, ci) == LitAt(t2, l, lit, ci) {
      assert t1[l..l + |lit|] == t2[l..l + |lit|];
    }
    InRegionMeans(t1, lit, open, f, ci);
    InRegionMeans(t2, lit, open, f, ci);
  }

  /** `<layer\b` reads the first seven characters only. */
  lemma LayerOpenIsLocal(t1: string, t2: string, m: nat)
    requires 7 <= m <= |t1| && m <= |t2| && t1[..m] == t2[..m]
    ensures LayerOpenB(t1) == LayerOpenB(t2)
    ensures LitAt(t1, 0, "<layer", true) == LitAt(t2, 0, "<layer", true)
    ensures LitAt(t1, 0, "<scene", true) == LitAt(t2, 0, "<scene", true)
  {
    assert t1[0..6] == t2[0..6];
    assert t1[6] == t2[6];
  }

  /**
   * The anchor pattern only looks at the text up to the '>' closing the tag:
   * two texts that agree that far match it alike.
   */
  lemma AnchorIsLocal(name: string, t1: string, t2: string, m: nat)
    requires m <= |t1| && m <= |t2| && t1[..m] == t2[..m]
    requires IndexOf(t1, '>', 6).Some? && IndexOf(t1, '>', 6).value < m
    ensures AnchorLen(name, t1) == AnchorLen(name, t2)
  {
    TagWithIsLocal(t1, t2, m, 6, AnchorLit(name), true);
    LayerOpenIsLocal(t1, t2, m);
    if LayerOpenB(t1) {
      match TagWith(t1, 6, AnchorLit(name), true)
      case None =>
      case Some(f) =>
        assert AnchorLen(name, t1).Some? && AnchorLen(name, t1).value == f + 1;
    }
  }

  /** The anchor matched at the start of `t`: the '>' that ends it is the first one after the tag name. */
  lemma AnchorEndsAtFirstClose(name: string, t: string, n: nat)
    requires AnchorLen(name, t).Some? && AnchorLen(name, t).value == n
    ensures IndexOf(t, '>', 6).Some? && IndexOf(t, '>', 6).value == n - 1
  {
  }

  // ---------------------------------------------------------------------------
  // PHP's replacement strings
  // ---------------------------------------------------------------------------

  /**
   * A back-reference at the start of `r` (which starts with '\' or '$'):
   * `\n`, `$n`, `\nn`, `$nn`, `${n}` or `${nn}`; its group number and length.
   */
  function Backref(r: string): (b: Option<(nat, nat)>)
    ensures b.Some? ==> 2 <= b.value.1 <= |r|
  {
    if |r| < 2 then None
    else
      var brace := r[0] == '$' && r[1] == '{';
      var j := if brace then 2 else 1;
      if j >= |r| || !IsDigit(r[j]) then None
      else
        var d := (r[j] as int - '0' as int) as nat;
        var two := j + 1 < |r| && IsDigit(r[j + 1]);
        var k := if two then d * 10 + (r[j + 1] as int - '0' as int) as nat else d;
        var e := if two then j + 2 else j + 1;
        if brace then (if e < |r| && r[e] == '}' then Some((k, e + 1)) else None)
        else Some((k, e))
  }

  /**
   * preg_replace's expansion of a replacement string: back-references are
   * replaced by the captured groups (by nothing past the last group), `\\` and
   * `\$` stand for one backslash and one dollar, anything else is copied.
   */
  function Expand(r: string, groups: seq<string>): string
    decreases |r|
  {
    if r == [] then []
    else if r[0] == '\\' || r[0] == '$' then
      match Backref(r)
      case Some(b) => (if b.0 < |groups| then groups[b.0] else []) + Expand(r[b.1..], groups)
      case None =>
        if r[0] == '\\' && |r| >= 2 && (r[1] == '\\' || r[1] == '$') then [r[1]] + Expand(r[2..], groups)
        else [r[0]] + Expand(r[1..], groups)
    else [r[0]] + Expand(r[1..], groups)
  }

  /** Text without a backslash or a dollar sign goes through the expansion unchanged. */
  lemma {:induction false} ExpandPlain(r: string, groups: seq<string>)
    requires forall i :: 0 <= i < |r| ==> r[i] != '\\' && r[i] != '$'
    ensures Expand(r, groups) == r
    decreases |r|
  {
    if r != [] {
      ExpandPlain(r[1..], groups);
    }
  }

  /** Text without a backslash or a dollar sign before a replacement string is copied ahead of its expansion. */
  lemma {:induction false} ExpandAfterPlain(a: string, r: string, groups: seq<string>)
    requires forall i :: 0 <= i < |a| ==> a[i] != '\\' && a[i] != '$'
    ensures Expand(a + r, groups) == a + Expand(r, groups)
    decreases |a|
  {
    if a != [] {
      var ar := a + r;
      assert ar[0] == a[0] && ar[1..] == a[1..] + r;
      assert Expand(ar, groups) == [a[0]] + Expand(ar[1..], groups);
      ExpandAfterPlain(a[1..], r, groups);
      assert [a[0]] + (a[1..] + Expand(r, groups)) == ([a[0]] + a[1..]) + Expand(r, groups);
      assert a == [a[0]] + a[1..];
    } else {
      assert a + r == r;
    }
  }

  /** `$1` not followed by a digit stands for the first group. */
  lemma ExpandGroupOne(y: string, groups: seq<string>)
    requires |groups| >= 2
    requires y == [] || !IsDigit(y[0])
    ensures Expand("$1" + y, groups) == groups[1] + Expand(y, groups)
  {
    var r := "$1" + y;
    assert r[0] == '$' && r[1] == '1';
    assert Backref(r).Some? && Backref(r).value == (1, 2);
    assert r[2..] == y;
  }

  /** The groups a match of `p` captures: the whole match first. */
  function Groups(p: Pattern, m: string): (g: seq<string>)
    ensures |g| >= 1 && g[0] == m
  {
    match p
    case Anchor(_) => [m, m]
    case SceneTag(_) => if m == [] then [m, m, m] else [m, m[..|m| - 1], m[|m| - 1..]]
    case _ => [m]
  }

  // ---------------------------------------------------------------------------
  // The scanning engine
  // ---------------------------------------------------------------------------

  /** What a match is replaced by. */
  datatype Fill =
      /** the given text, taken literally */
    | Literal(text: string)
      /** a PHP replacement string, with its back-references expanded */
    | Template(text: string)
      /** updateSceneMetaInXml's callback: rewrite title, subtitle and places inside the tag */
    | SceneMeta(title: string, subtitle: string)

  function FillRank(f: Fill): nat
  {
    if f.SceneMeta? then 1 else 0
  }

  /** The replacement of the match `m` of `p`. */
  function FillWith(f: Fill, p: Pattern, m: string): string
    decreases FillRank(f), 0
  {
    match f
    case Literal(text) => text
    case Template(text) => Expand(text, Groups(p, m))
    case SceneMeta(title, subtitle) =>
      if m == [] then []
      else
        var tag := m[..|m| - 1];
        var t1 := Rewrite(Attr("title"), tag, Literal("title=\"" + title + "\""));
        var t2 := Rewrite(Attr("subtitle"), t1, Literal("subtitle=\"" + subtitle + "\""));
        var t3 := Rewrite(Attr("places"), t2, Literal("places=\"" + title + "\""));
        t3 + m[|m| - 1..]
  }

  /** preg_replace (and preg_replace_callback) without a limit: every match, left to right. */
  function Rewrite(p: Pattern, s: string, f: Fill): string
    decreases FillRank(f), |s| + 1
  {
    if s == [] then []
    else match MatchLen(p, s)
      case Some(n) => FillWith(f, p, s[..n]) + Rewrite(p, s[n..], f)
      case None => [s[0]] + Rewrite(p, s[1..], f)
  }

  /** preg_replace with limit 1: the leftmost match only. */
  function RewriteFirst(p: Pattern, s: string, f: Fill): string
  {
    match FirstMatch(p, s, 0)
    case None => s
    case Some(k) =>
      var n := MatchLen(p, s[k..]).value;
      s[..k] + FillWith(f, p, s[k..][..n]) + s[k + n..]
  }

  /** Text before the first match comes through the scan untouched. */
  lemma {:induction false} RewriteSkips(p: Pattern, s: string, f: Fill, k: nat)
    requires k <= |s|
    requires forall j :: 0 <= j < k ==> !MatchesAt(p, s, j)
    ensures Rewrite(p, s, f) == s[..k] + Rewrite(p, s[k..], f)
    decreases k
  {
    if k > 0 {
      assert Rewrite(p, s[1..], f) == s[1..][..k - 1] + Rewrite(p, s[1..][k - 1..], f) by {
        NoMatchInTail(p, s, k);
        RewriteSkips(p, s[1..], f, k - 1);
      }
      assert !MatchesAt(p, s, 0);
      SkipOne(p, s, f, k);
    }
  }

  /** One step of RewriteSkips: the scan past a first character where nothing matches. */
  lemma SkipOne(p: Pattern, s: string, f: Fill, k: nat)
    requires 0 < k <= |s| && !MatchesAt(p, s, 0)
    requires Rewrite(p, s[1..], f) == s[1..][..k - 1] + Rewrite(p, s[1..][k - 1..], f)
    ensures Rewrite(p, s, f) == s[..k] + Rewrite(p, s[k..], f)
  {
    var rest := Rewrite(p, s[k..], f);
    assert s[1..][k - 1..] == s[k..];
    RewriteAtMiss(p, s, f);
    HeadThenPrefix(s, k, rest);
  }

  /** Where no match starts, the scan copies one character and moves on. */
  lemma RewriteAtMiss(p: Pattern, s: string, f: Fill)
    requires s != [] && !MatchesAt(p, s, 0)
    ensures Rewrite(p, s, f) == [s[0]] + Rewrite(p, s[1..], f)
  {
    assert s[0..] == s;
  }

  /** Dropping the first character shifts the positions where nothing matches. */
  lemma NoMatchInTail(p: Pattern, s: string, k: nat)
    requires 0 < k <= |s|
    requires forall j :: 0 <= j < k ==> !MatchesAt(p, s, j)
    ensures forall j :: 0 <= j < k - 1 ==> !MatchesAt(p, s[1..], j)
  {
    forall j | 0 <= j < k - 1 ensures !MatchesAt(p, s[1..], j) {
      assert s[1..][j..] == s[j + 1..];
      assert !MatchesAt(p, s, j + 1);
    }
  }

  lemma RewriteAtMatch(p: Pattern, s: string, f: Fill, n: nat)
    requires MatchLen(p, s).Some? && MatchLen(p, s).value == n
    ensures Rewrite(p, s, f) == FillWith(f, p, s[..n]) + Rewrite(p, s[n..], f)
  {
  }

  /**
   * The scan in terms of the leftmost match: nothing changes without one;
   * otherwise the text before it is kept, the match is replaced, and the scan
   * goes on right after the match.
   */
  lemma RewriteAtFirstMatch(p: Pattern, s: string, f: Fill, k: nat, n: nat)
    requires FirstMatch(p, s, 0).Some? && FirstMatch(p, s, 0).value == k
    requires k <= |s| && MatchLen(p, s[k..]).Some? && MatchLen(p, s[k..]).value == n
    ensures k + n <= |s|
    ensures Rewrite(p, s, f) == s[..k] + FillWith(f, p, s[k..k + n]) + Rewrite(p, s[k + n..], f)
  {
    var t := s[k..];
    SuffixSlices(s, k, n);
    assert Rewrite(p, s, f) == s[..k] + Rewrite(p, t, f) by {
      RewriteSkips(p, s, f, k);
    }
    assert Rewrite(p, t, f) == FillWith(f, p, t[..n]) + Rewrite(p, t[n..], f) by {
      RewriteAtMatch(p, t, f, n);
    }
  }

  /** Replacing the first match: the text before and after it is kept. */
  lemma RewriteFirstAt(p: Pattern, s: string, f: Fill, k: nat, n: nat)
    requires FirstMatch(p, s, 0).Some? && FirstMatch(p, s, 0).value == k && MatchLen(p, s[k..]).Some? && MatchLen(p, s[k..]).value == n
    ensures k + n <= |s|
    ensures RewriteFirst(p, s, f) == s[..k] + FillWith(f, p, s[k..k + n]) + s[k + n..]
  {
    SuffixSlices(s, k, n);
  }

  /** A template replacement of the first match, at k and n long. */
  lemma RewriteFirstTemplate(p: Pattern, s: string, text: string, k: nat, n: nat)
    requires FirstMatch(p, s, 0).Some? && FirstMatch(p, s, 0).value == k && MatchLen(p, s[k..]).Some? && MatchLen(p, s[k..]).value == n
    ensures k + n <= |s|
    ensures RewriteFirst(p, s, Template(text)) == s[..k] + Expand(text, Groups(p, s[k..k + n])) + s[k + n..]
  {
    RewriteFirstAt(p, s, Template(text), k, n);
  }

  /** A literal replacement of the first match, the match ending at e. */
  lemma RewriteFirstLiteral(p: Pattern, s: string, x: string, k: nat, e: nat)
    requires FirstMatch(p, s, 0).Some? && FirstMatch(p, s, 0).value == k
    requires k <= e && MatchLen(p, s[k..]).Some? && MatchLen(p, s[k..]).value == e - k
    ensures e <= |s|
    ensures RewriteFirst(p, s, Literal(x)) == s[..k] + x + s[e..]
  {
    RewriteFirstAt(p, s, Literal(x), k, e - k);
  }

  /** Replacing every match and replacing the first agree on a document with a single match. */
  lemma RewriteSingleMatch(p: Pattern, s: string, f: Fill, k: nat, n: nat)
    requires FirstMatch(p, s, 0).Some? && FirstMatch(p, s, 0).value == k && MatchLen(p, s[k..]).Some? && MatchLen(p, s[k..]).value == n
    requires FirstMatch(p, s, k + n).None?
    ensures Rewrite(p, s, f) == RewriteFirst(p, s, f)
  {
    var rest := s[k + n..];
    RewriteAtFirstMatch(p, s, f, k, n);
    RewriteFirstAt(p, s, f, k, n);
    forall j | 0 <= j < |rest| ensures !MatchesAt(p, rest, j) {
      assert rest[j..] == s[k + n + j..];
      assert !MatchesAt(p, s, k + n + j);
    }
    RewriteNoMatch(p, rest, f);
  }

  /** A prefix in which no match starts is kept as it is. */
  lemma RewritePrefix(p: Pattern, a: string, b: string, f: Fill)
    requires forall j :: 0 <= j < |a| ==> !MatchesAt(p, a + b, j)
    ensures Rewrite(p, a + b, f) == a + Rewrite(p, b, f)
  {
    RewriteSkips(p, a + b, f, |a|);
    assert (a + b)[..|a|] == a;
    assert (a + b)[|a|..] == b;
  }

  /** A document in which the pattern matches nowhere is left exactly as it was. */
  lemma RewriteNoMatch(p: Pattern, s: string, f: Fill)
    requires forall j :: 0 <= j < |s| ==> !MatchesAt(p, s, j)
    ensures Rewrite(p, s, f) == s
    ensures RewriteFirst(p, s, f) == s
  {
    RewriteSkips(p, s, f, |s|);
    assert s[..|s|] == s;
    assert s[|s|..] == [];
  }
}
