/** The template engine of `bicit-cli/src/lib.rs`: the SVG template is read as
    the sequence of XML events the reader yields, the track colour is looked
    up on the element with id `path_elevation`, and one pass over the events
    copies them to the output, replacing the text after a known `tspan`, the
    `d` of the elevation `path` and the link of the map `image`. Tokenising
    and writing the XML text are not modelled: a document is its event list
    and the output is one too. */
module Template {
  import opened Base
  import opened Text
  import opened Numbers
  import opened Colors
  import opened Svg
  import opened InputPaths
  import opened Track
  import opened Contexts
  import opened MapRender

  datatype Attr = Attr(key: string, value: string)

  /** The reader's events, already trimmed of surrounding whitespace; `Other`
      stands for every kind the pass copies untouched (comments,
      declarations, CDATA, ...). */
  datatype Event =
    | Start(name: string, attrs: seq<Attr>)
    | Empty(name: string, attrs: seq<Attr>)
    | Text(text: string)
    | End(name: string)
    | Other(raw: string)

  /** The events before the end of the input or before the reader's first
      error; `malformed` records whether there was such an error. */
  datatype Document = Document(events: seq<Event>, malformed: bool)

  const MalformedError := "XML parse error"

  /** `get_attribute`: the value of the first attribute with that key. */
  function GetAttribute(attrs: seq<Attr>, key: string): Option<string> {
    if |attrs| == 0 then None
    else if attrs[0].key == key then Some(attrs[0].value)
    else GetAttribute(attrs[1..], key)
  }

  lemma {:induction false} GetAttributeFirst(attrs: seq<Attr>, key: string)
    ensures GetAttribute(attrs, key).None? <==> forall i :: 0 <= i < |attrs| ==> attrs[i].key != key
    ensures GetAttribute(attrs, key).Some? ==>
      exists i :: 0 <= i < |attrs| && attrs[i] == Attr(key, GetAttribute(attrs, key).value)
        && forall j :: 0 <= j < i ==> attrs[j].key != key
  {
    if |attrs| > 0 && attrs[0].key != key {
      var rest := attrs[1..];
      GetAttributeFirst(rest, key);
      assert forall i :: 1 <= i < |attrs| ==> attrs[i] == rest[i - 1];
      if GetAttribute(rest, key).Some? {
        var i :| 0 <= i < |rest| && rest[i] == Attr(key, GetAttribute(rest, key).value)
          && forall j :: 0 <= j < i ==> rest[j].key != key;
        assert attrs[i + 1] == rest[i];
        assert forall j :: 0 <= j < i + 1 ==> attrs[j].key != key by {
          forall j | 0 <= j < i + 1 ensures attrs[j].key != key {
            if j > 0 { assert attrs[j] == rest[j - 1]; }
          }
        }
      }
    } else if |attrs| > 0 {
      assert attrs[0] == Attr(key, GetAttribute(attrs, key).value);
    }
  }

  /** A key that no earlier attribute carries is looked up past them. */
  lemma {:induction false} GetAttributeSkip(a: seq<Attr>, b: seq<Attr>, key: string)
    requires forall i :: 0 <= i < |a| ==> a[i].key != key
    ensures GetAttribute(a + b, key) == GetAttribute(b, key)
  {
    if |a| > 0 {
      assert (a + b)[0] == a[0];
      assert (a + b)[1..] == a[1..] + b;
      assert forall i :: 0 <= i < |a| - 1 ==> a[1..][i] == a[i + 1];
      GetAttributeSkip(a[1..], b, key);
    } else {
      assert a + b == b;
    }
  }

  /** The attributes whose key is not in `keys`, in their order. */
  function WithoutKeys(attrs: seq<Attr>, keys: set<string>): (r: seq<Attr>)
    ensures |r| <= |attrs|
    ensures forall a :: a in r <==> a in attrs && a.key !in keys
  {
    if |attrs| == 0 then []
    else
      assert attrs == [attrs[0]] + attrs[1..];
      (if attrs[0].key in keys then [] else [attrs[0]]) + WithoutKeys(attrs[1..], keys)
  }

  /** Dropping keys distributes over concatenation: the kept attributes
      stay in their order. */
  lemma {:induction false} WithoutKeysAppend(a: seq<Attr>, b: seq<Attr>, keys: set<string>)
    ensures WithoutKeys(a + b, keys) == WithoutKeys(a, keys) + WithoutKeys(b, keys)
  {
    if |a| > 0 {
      var head := if a[0].key in keys then [] else [a[0]];
      assert (a + b)[0] == a[0];
      assert (a + b)[1..] == a[1..] + b;
      assert WithoutKeys(a + b, keys) == head + WithoutKeys(a[1..] + b, keys);
      assert WithoutKeys(a, keys) == head + WithoutKeys(a[1..], keys);
      WithoutKeysAppend(a[1..], b, keys);
      AppendAssoc(head, WithoutKeys(a[1..], keys), WithoutKeys(b, keys));
    } else {
      assert a + b == b;
    }
  }

  lemma {:induction false} WithoutAbsentKeys(attrs: seq<Attr>, keys: set<string>)
    requires forall i :: 0 <= i < |attrs| ==> attrs[i].key !in keys
    ensures WithoutKeys(attrs, keys) == attrs
  {
    if |attrs| > 0 {
      WithoutAbsentKeys(attrs[1..], keys);
      assert attrs == [attrs[0]] + attrs[1..];
    }
  }

  // ---------------------------------------------------------------------
  // The track colour

  /** The colour an element gives the track: only the element with id
      `path_elevation` counts; its `stroke` attribute when that is a hex
      colour, otherwise the `stroke:` entry of its `style`. */
  function ElementColor(attrs: seq<Attr>): Option<Color> {
    if GetAttribute(attrs, "id") != Some("path_elevation") then None
    else
      var stroke := GetAttribute(attrs, "stroke");
      if stroke.Some? && |stroke.value| > 0 && stroke.value[0] == '#' && TryFromHex(stroke.value).Some? then
        TryFromHex(stroke.value)
      else
        var style := GetAttribute(attrs, "style");
        if style.Some? && StrokeHexFromStyle(style.value).Some? then TryFromHex(StrokeHexFromStyle(style.value).value)
        else None
  }

  function EventColor(ev: Event): Option<Color> {
    match ev
    case Start(_, attrs) => ElementColor(attrs)
    case Empty(_, attrs) => ElementColor(attrs)
    case _ => None
  }

  /** `extract_track_color_from_template`, as the first colour along the
      events. */
  function TrackColorOf(events: seq<Event>): Option<Color> {
    if |events| == 0 then None
    else if EventColor(events[0]).Some? then EventColor(events[0])
    else TrackColorOf(events[1..])
  }

  /** The colour is that of the first element that gives one, and there is
      none exactly when no element gives one. */
  lemma {:induction false} FirstTrackColor(events: seq<Event>)
    ensures TrackColorOf(events).None? <==> forall i :: 0 <= i < |events| ==> EventColor(events[i]).None?
    ensures TrackColorOf(events).Some? ==>
      exists i :: 0 <= i < |events| && EventColor(events[i]) == TrackColorOf(events)
        && forall j :: 0 <= j < i ==> EventColor(events[j]).None?
  {
    if |events| > 0 && EventColor(events[0]).None? {
      var rest := events[1..];
      FirstTrackColor(rest);
      assert forall i :: 1 <= i < |events| ==> events[i] == rest[i - 1];
      if TrackColorOf(rest).Some? {
        var i :| 0 <= i < |rest| && EventColor(rest[i]) == TrackColorOf(rest)
          && forall j :: 0 <= j < i ==> EventColor(rest[j]).None?;
        assert events[i + 1] == rest[i];
        forall j | 0 <= j < i + 1 ensures EventColor(events[j]).None? {
          if j > 0 { assert events[j] == rest[j - 1]; }
        }
      }
    }
  }

  method ExtractTrackColor(doc: Document) returns (r: Option<Color>)
    ensures r == TrackColorOf(doc.events)
  {
    var i := 0;
    while i < |doc.events|
      invariant 0 <= i <= |doc.events|
      invariant TrackColorOf(doc.events) == TrackColorOf(doc.events[i..])
    {
      var ev := doc.events[i];
      if ev.Start? || ev.Empty? {
        var c := ElementColor(ev.attrs);
        if c.Some? {
          return c;
        }
      }
      assert doc.events[i..][1..] == doc.events[i + 1..];
      i := i + 1;
    }
    return None;
  }

  /** The unit test with a `stroke` attribute. Its texts are parameters
      fixed by `requires`, so that the verifier reasons about the pieces rather
      than unfolding the lookups on a literal; the other anchors do the same. */
  lemma StrokeAttributeAnchor(id: string, stroke: string, events: seq<Event>)
    requires id == "path_elevation" && stroke == "#22C55E"
    requires events == [Start("svg", []), Empty("path", [Attr("id", id), Attr("d", "M0 0"), Attr("stroke", stroke)]),
                        Empty("image", [Attr("id", "image_map")]), End("svg")]
    ensures TrackColorOf(events) == Some(Color(stroke))
  {
    var attrs := [Attr("id", id), Attr("d", "M0 0"), Attr("stroke", stroke)];
    assert GetAttribute(attrs, "id") == Some(id);
    assert GetAttribute(attrs[1..][1..], "stroke") == Some(stroke);
    assert GetAttribute(attrs, "stroke") == Some(stroke);
    assert IsHexColor(stroke);
    assert ElementColor(attrs) == Some(Color(stroke));
    assert EventColor(events[0]).None?;
    assert events[1..][0] == events[1];
  }

  /** The unit test with the colour in `style`, after an image element. */
  lemma StyleAnchor(pre: string, hex: string, post: string, events: seq<Event>)
    requires pre == "fill:none;" && hex == "#2db192" && post == ";stroke-width:1"
    requires events == [Start("svg", []), Empty("image", [Attr("id", "image_map")]),
                        Empty("path", [Attr("id", "path_elevation"), Attr("d", "M0 0"), Attr("style", pre + StrokeKey + hex + post)]),
                        End("svg")]
    ensures TrackColorOf(events) == Some(Color(hex))
  {
    StrokeAnchor(pre, hex, post);
    StyleColor(pre + StrokeKey + hex + post, hex, events);
  }

  lemma StyleColor(style: string, hex: string, events: seq<Event>)
    requires StrokeHexFromStyle(style) == Some(hex)
    requires events == [Start("svg", []), Empty("image", [Attr("id", "image_map")]),
                        Empty("path", [Attr("id", "path_elevation"), Attr("d", "M0 0"), Attr("style", style)]),
                        End("svg")]
    ensures TrackColorOf(events) == Some(Color(hex))
  {
    var attrs := events[2].attrs;
    assert GetAttribute(attrs, "id") == Some("path_elevation");
    assert GetAttribute(attrs, "stroke") == None by {
      assert forall i :: 0 <= i < |attrs| ==> |attrs[i].key| != |"stroke"|;
      GetAttributeFirst(attrs, "stroke");
    }
    assert GetAttribute(attrs[1..][1..], "style") == Some(style);
    assert GetAttribute(attrs, "style") == Some(style);
    assert ElementColor(attrs) == Some(Color(hex));
    assert EventColor(events[0]).None? && EventColor(events[1]).None?;
    assert events[1..][0] == events[1];
    assert events[1..][1..][0] == events[2];
    assert TrackColorOf(events[1..][1..]) == Some(Color(hex));
    assert TrackColorOf(events[1..]) == Some(Color(hex));
  }

  // ---------------------------------------------------------------------
  // One element

  /** What the handler reads besides the element and the cache: the loaded
      data, the context's map backend and number formatting, and the track
      colour. */
  datatype Env = Env(data: Option<ContextData>, backend: MapBackend, display: real -> string, trackColor: Option<Color>)

  /** The pixel size and colour an `image` element asks the map for; none
      when its width or height is missing or not a number. */
  function ImageRequest(attrs: seq<Attr>, metrics: Option<SvgMetrics>, id: string, trackColor: Option<Color>)
    : (r: Option<(nat, nat, Option<Color>)>)
    ensures r.Some? <==>
      GetAttribute(attrs, "width").Some? && GetAttribute(attrs, "height").Some?
      && ParseF64(GetAttribute(attrs, "width").value).Some? && ParseF64(GetAttribute(attrs, "height").value).Some?
    ensures r.Some? ==> 1 <= r.value.0 <= U32_MAX && 1 <= r.value.1 <= U32_MAX
    ensures r.Some? && metrics.None? ==> r.value.0 == 1000
    ensures r.Some? && r.value.2.Some? ==> id == "image_map" && r.value.2 == trackColor
    ensures r.Some? && id == "image_map" ==> r.value.2 == trackColor
    ensures r.Some? ==>
      var wUnits := ParseF64(GetAttribute(attrs, "width").value).value;
      var hUnits := ParseF64(GetAttribute(attrs, "height").value).value;
      (r.value.0, r.value.1) ==
        if metrics.Some? then ImagePixels(metrics.value, wUnits, hUnits) else FallbackPixels(wUnits, hUnits)
  {
    var wd := GetAttribute(attrs, "width");
    var hd := GetAttribute(attrs, "height");
    if wd.None? || hd.None? then None
    else
      var wUnits := ParseF64(wd.value);
      var hUnits := ParseF64(hd.value);
      if wUnits.None? || hUnits.None? then None
      else
        var size := if metrics.Some? then ImagePixels(metrics.value, wUnits.value, hUnits.value)
                    else FallbackPixels(wUnits.value, hUnits.value);
        Some((size.0, size.1, if id == "image_map" then trackColor else None))
  }

  /** `handle_xml`: the replacement an element asks for, together with the
      map cache afterwards. */
  function HandleSpec(env: Env, cache: MapCache, metrics: Option<SvgMetrics>, name: string, attrs: seq<Attr>)
    : (r: (Result<Option<string>>, MapCache))
    ensures GetAttribute(attrs, "id").None? ==> r == (Success(None), cache)
    ensures name != "image" ==> r.1 == cache
    ensures r.0.Failure? ==>
      name == "path" && GetAttribute(attrs, "d").Some? && InputPathSpec(GetAttribute(attrs, "d").value).Failure?
    ensures r.0.Success? && r.0.value.Some? ==> env.data.Some? && GetAttribute(attrs, "id").Some?
    ensures r.0.Success? && r.0.value.Some? ==>
      var id := GetAttribute(attrs, "id").value;
      (name == "tspan" && id in StringKeys) || (name == "path" && id == "path_elevation")
      || (name == "image" && id == "image_map")
  {
    var id := GetAttribute(attrs, "id");
    if id.None? then (Success(None), cache)
    else if name == "tspan" then (Success(GetString(env.data, id.value)), cache)
    else if name == "path" then
      var d := GetAttribute(attrs, "d");
      if d.None? then (Success(None), cache)
      else match InputPathSpec(d.value)
        case Failure(e) => (Failure(e), cache)
        case Success(inp) => (Success(PathFor(env.data, id.value, inp, env.display)), cache)
    else if name == "image" then
      var req := ImageRequest(attrs, metrics, id.value, env.trackColor);
      if req.None? then (Success(None), cache)
      else
        var (v, cache') := ImageLookup(env.backend, env.data, cache, id.value, req.value.0, req.value.1, req.value.2);
        (Success(v), cache')
    else (Success(None), cache)
  }

  /** With data loaded, each key the source knows is answered. */
  lemma HandleResolves(env: Env, cache: MapCache, metrics: Option<SvgMetrics>, name: string, attrs: seq<Attr>)
    requires env.data.Some? && GetAttribute(attrs, "id").Some?
    requires name == "tspan" && GetAttribute(attrs, "id").value in StringKeys
    ensures HandleSpec(env, cache, metrics, name, attrs) == (Success(GetString(env.data, GetAttribute(attrs, "id").value)), cache)
    ensures HandleSpec(env, cache, metrics, name, attrs).0.value.Some?
  {
  }

  /** The elevation path is answered whenever its `d` parses. */
  lemma HandlePath(env: Env, cache: MapCache, metrics: Option<SvgMetrics>, attrs: seq<Attr>)
    requires env.data.Some? && GetAttribute(attrs, "id") == Some("path_elevation")
    requires GetAttribute(attrs, "d").Some? && InputPathSpec(GetAttribute(attrs, "d").value).Success?
    ensures HandleSpec(env, cache, metrics, "path", attrs).0 ==
      Success(PathFor(env.data, "path_elevation", InputPathSpec(GetAttribute(attrs, "d").value).value, env.display))
    ensures HandleSpec(env, cache, metrics, "path", attrs).0.value.Some?
  {
  }

  /** With data loaded, `image_map` with a width and height that parse is
      answered by the map lookup for the requested size and colour, which
      also gives the new cache. */
  lemma HandleImage(env: Env, cache: MapCache, metrics: Option<SvgMetrics>, attrs: seq<Attr>, q: (nat, nat, Option<Color>))
    requires env.data.Some? && GetAttribute(attrs, "id") == Some("image_map")
    requires ImageRequest(attrs, metrics, "image_map", env.trackColor) == Some(q)
    ensures var look := ImageLookup(env.backend, env.data, cache, "image_map", q.0, q.1, q.2);
      HandleSpec(env, cache, metrics, "image", attrs) == (Success(look.0), look.1)
  {
  }

  /** Every `path` with an id has its `d` parsed, whatever the id: a `d` the
      path parser refuses fails the pass. */
  lemma PathParseFailure(env: Env, cache: MapCache, metrics: Option<SvgMetrics>, attrs: seq<Attr>)
    requires GetAttribute(attrs, "id").Some? && GetAttribute(attrs, "d").Some?
    requires InputPathSpec(GetAttribute(attrs, "d").value).Failure?
    ensures HandleSpec(env, cache, metrics, "path", attrs).0 == Failure(InputPathSpec(GetAttribute(attrs, "d").value).error)
  {
  }

  method HandleXml(ctx: Context, name: string, attrs: seq<Attr>, metrics: Option<SvgMetrics>, trackColor: Option<Color>)
    returns (r: Result<Option<string>>)
    modifies ctx
    ensures ctx.data == old(ctx.data)
    ensures (r, ctx.Cache()) == HandleSpec(Env(ctx.data, ctx.backend, ctx.display, trackColor), old(ctx.Cache()), metrics, name, attrs)
  {
    var id := GetAttribute(attrs, "id");
    if id.None? {
      return Success(None);
    }
    if name == "tspan" {
      return Success(GetString(ctx.data, id.value));
    } else if name == "path" {
      var d := GetAttribute(attrs, "d");
      if d.None? {
        return Success(None);
      }
      var inp := NewInputPath(d.value);
      if inp.Failure? {
        return Failure(inp.error);
      }
      var v := ctx.GetPath(id.value, inp.value);
      return Success(v);
    } else if name == "image" {
      var req := ImageRequest(attrs, metrics, id.value, trackColor);
      if req.None? {
        return Success(None);
      }
      var v := ctx.GetImage(id.value, req.value.0, req.value.1, req.value.2);
      return Success(v);
    }
    return Success(None);
  }

  // ---------------------------------------------------------------------
  // The pass over the events

  /** The variables of `apply_context_xml`'s loop: the events written so far,
      the replacement waiting for the next text node, the template's
      metrics, the context's map cache, and the error the pass stopped on. */
  datatype PassState = PassState(out: seq<Event>, pending: Option<string>, metrics: Option<SvgMetrics>,
                                 cache: MapCache, error: Option<string>)

  /** The metrics of an `svg` start tag: its width and height must both be
      lengths in pixels or a known unit; the user space is the `viewBox`,
      or the pixel size itself when there is no `viewBox` that parses. */
  function MetricsFrom(attrs: seq<Attr>): (r: Option<SvgMetrics>)
    ensures r.Some? <==>
      GetAttribute(attrs, "width").Some? && GetAttribute(attrs, "height").Some?
      && SvgLengthToPx(GetAttribute(attrs, "width").value).Some? && SvgLengthToPx(GetAttribute(attrs, "height").value).Some?
  {
    var w := GetAttribute(attrs, "width");
    var h := GetAttribute(attrs, "height");
    if w.None? || h.None? then None
    else
      var pw := SvgLengthToPx(w.value);
      var ph := SvgLengthToPx(h.value);
      var vb := GetAttribute(attrs, "viewBox");
      var box := if vb.Some? && ParseViewBox(vb.value).Some? then ParseViewBox(vb.value).value
                 else ViewBox(0.0, 0.0, if pw.Some? then pw.value else 1.0, if ph.Some? then ph.value else 1.0);
      if pw.Some? && ph.Some? then Some(SvgMetrics(pw.value, ph.value, box.width, box.height)) else None
  }

  /** Without a `viewBox`, one user unit is one pixel. */
  lemma MetricsWithoutViewBox(attrs: seq<Attr>)
    requires MetricsFrom(attrs).Some? && GetAttribute(attrs, "viewBox").None?
    ensures MetricsFrom(attrs).value.viewBoxW == MetricsFrom(attrs).value.svgPxW
    ensures MetricsFrom(attrs).value.viewBoxH == MetricsFrom(attrs).value.svgPxH
  {
  }

  /** With a `viewBox`, the user space is its width and height. */
  lemma MetricsWithViewBox(attrs: seq<Attr>, vb: ViewBox)
    requires MetricsFrom(attrs).Some? && GetAttribute(attrs, "viewBox").Some?
    requires ParseViewBox(GetAttribute(attrs, "viewBox").value) == Some(vb)
    ensures MetricsFrom(attrs).value.viewBoxW == vb.width && MetricsFrom(attrs).value.viewBoxH == vb.height
  {
  }

  /** The element written in place of a resolved `path` or `image`: the old
      attributes without the replaced ones, then the new value. */
  function Rewrite(name: string, attrs: seq<Attr>, v: string): Event {
    if name == "path" then Empty(name, WithoutKeys(attrs, {"d"}) + [Attr("d", v)])
    else Empty(name, WithoutKeys(attrs, {"xlink:href", "sodipodi:absref"}) + [Attr("xlink:href", v)])
  }

  /** A rewritten path has one `d`, the new one, and keeps every other
      attribute. */
  lemma PathRewrite(attrs: seq<Attr>, v: string)
    ensures var e := Rewrite("path", attrs, v);
      e.attrs[|e.attrs| - 1] == Attr("d", v) && GetAttribute(e.attrs, "d") == Some(v)
      && (forall i :: 0 <= i < |e.attrs| - 1 ==> e.attrs[i].key != "d")
      && (forall a: Attr :: a.key != "d" ==> (a in e.attrs <==> a in attrs))
      && e.attrs[..|e.attrs| - 1] == WithoutKeys(attrs, {"d"})
    ensures (forall i :: 0 <= i < |attrs| ==> attrs[i].key != "d") ==>
      Rewrite("path", attrs, v).attrs == attrs + [Attr("d", v)]
  {
    var kept := WithoutKeys(attrs, {"d"});
    var e := Rewrite("path", attrs, v);
    assert e.attrs == kept + [Attr("d", v)];
    assert e.attrs[..|e.attrs| - 1] == kept;
    if forall i :: 0 <= i < |attrs| ==> attrs[i].key != "d" {
      WithoutAbsentKeys(attrs, {"d"});
    }
    assert forall i :: 0 <= i < |kept| ==> kept[i] in kept;
    GetAttributeSkip(kept, [Attr("d", v)], "d");
  }

  /** A rewritten image links to the new value only: one `xlink:href`, no
      `sodipodi:absref`, and every other attribute kept. */
  lemma ImageRewrite(attrs: seq<Attr>, v: string)
    ensures var e := Rewrite("image", attrs, v);
      e.attrs[|e.attrs| - 1] == Attr("xlink:href", v) && GetAttribute(e.attrs, "xlink:href") == Some(v)
      && GetAttribute(e.attrs, "sodipodi:absref").None?
      && (forall i :: 0 <= i < |e.attrs| - 1 ==> e.attrs[i].key != "xlink:href")
      && (forall a: Attr :: a.key != "xlink:href" && a.key != "sodipodi:absref" ==> (a in e.attrs <==> a in attrs))
      && e.attrs[..|e.attrs| - 1] == WithoutKeys(attrs, {"xlink:href", "sodipodi:absref"})
  {
    var e := Rewrite("image", attrs, v);
    var kept := WithoutKeys(attrs, {"xlink:href", "sodipodi:absref"});
    assert forall i :: 0 <= i < |kept| ==> kept[i] in kept;
    GetAttributeSkip(kept, [Attr("xlink:href", v)], "xlink:href");
    assert forall i :: 0 <= i < |e.attrs| ==> e.attrs[i].key != "sodipodi:absref" by {
      assert "xlink:href" != "sodipodi:absref" by { assert |"xlink:href"| != |"sodipodi:absref"|; }
    }
    GetAttributeFirst(e.attrs, "sodipodi:absref");
  }

  /** An image without a link keeps all its attributes in order and gains
      the new `xlink:href` at the end. */
  lemma ImageWithoutLink(attrs: seq<Attr>, v: string)
    requires forall i :: 0 <= i < |attrs| ==> attrs[i].key !in {"xlink:href", "sodipodi:absref"}
    ensures Rewrite("image", attrs, v).attrs == attrs + [Attr("xlink:href", v)]
  {
    WithoutAbsentKeys(attrs, {"xlink:href", "sodipodi:absref"});
  }

  /** How an output event can stand for an input event: text stays text,
      a `path` or `image` element is kept or rewritten, all else is copied. */
  ghost predicate Corresponds(ev: Event, o: Event) {
    match ev
    case Text(_) => o.Text?
    case Empty(name, attrs) => o == ev || ((name == "path" || name == "image") && exists v :: o == Rewrite(name, attrs, v))
    case _ => o == ev
  }

  /** What the pass asks of the handler for one element: the replacement, or
      the failure it panics on, and the map cache afterwards. */
  type Handler = (MapCache, Option<SvgMetrics>, string, seq<Attr>) -> (Result<Option<string>>, MapCache)

  /** `handle_xml` on a given context and track colour. */
  function HandlerOf(env: Env): Handler {
    (cache, metrics, name, attrs) => HandleSpec(env, cache, metrics, name, attrs)
  }

  lemma HandlerOfApplies(env: Env, cache: MapCache, metrics: Option<SvgMetrics>, name: string, attrs: seq<Attr>)
    ensures HandlerOf(env)(cache, metrics, name, attrs) == HandleSpec(env, cache, metrics, name, attrs)
  {
  }

  /** One turn of the loop, for any handler. */
  function StepEvent(h: Handler, st: PassState, ev: Event): (r: PassState)
    ensures st.error.Some? ==> r == st
    ensures r.error.None? ==> st.error.None? && |r.out| == |st.out| + 1 && r.out[..|st.out|] == st.out
    ensures r.error.Some? && st.error.None? ==>
      Handled(ev) && r.out == st.out
      && h(st.cache, st.metrics, ev.name, ev.attrs).0.Failure?
    ensures r.metrics == st.metrics || (st.metrics.None? && ev.Start? && ev.name == "svg")
    ensures r.cache != st.cache ==>
      Handled(ev) && r.cache == h(st.cache, st.metrics, ev.name, ev.attrs).1
    ensures r.error.None? && !ev.Text? && !IsTspanStart(ev) ==> r.pending == st.pending
    ensures st.error.None? && ev.Text? ==>
      r.error.None? && r.pending.None? && r.out[|st.out|] == if st.pending.Some? then Text(st.pending.value) else ev
    ensures st.error.None? && r.error.None? && ev.Empty? && (ev.name == "path" || ev.name == "image") ==>
      var a := h(st.cache, st.metrics, ev.name, ev.attrs).0;
      a.Success? && r.out[|st.out|] == if a.value.Some? then Rewrite(ev.name, ev.attrs, a.value.value) else ev
  {
    if st.error.Some? then st
    else match ev
      case Start(name, attrs) =>
        if name == "svg" then
          st.(out := st.out + [ev], metrics := if st.metrics.None? then MetricsFrom(attrs) else st.metrics)
        else if name == "tspan" then
          var (res, cache) := h(st.cache, st.metrics, name, attrs);
          if res.Failure? then st.(cache := cache, error := Some(res.error))
          else st.(out := st.out + [ev], pending := res.value, cache := cache)
        else st.(out := st.out + [ev])
      case Empty(name, attrs) =>
        if name == "path" || name == "image" then
          var (res, cache) := h(st.cache, st.metrics, name, attrs);
          if res.Failure? then st.(cache := cache, error := Some(res.error))
          else
            var o := if res.value.Some? then Rewrite(name, attrs, res.value.value) else ev;
            st.(out := st.out + [o], cache := cache)
        else st.(out := st.out + [ev])
      case Text(t) =>
        st.(out := st.out + [Text(if st.pending.Some? then st.pending.value else t)], pending := None)
      case _ => st.(out := st.out + [ev])
  }

  /** The event a step writes stands for the event it read. */
  lemma StepCorresponds(h: Handler, st: PassState, ev: Event)
    requires StepEvent(h, st, ev).error.None?
    ensures Corresponds(ev, StepEvent(h, st, ev).out[|st.out|])
    ensures ev.Empty? && (ev.name == "path" || ev.name == "image") ==>
      var a := h(st.cache, st.metrics, ev.name, ev.attrs).0;
      a.Success? && StepEvent(h, st, ev).out[|st.out|] == if a.value.Some? then Rewrite(ev.name, ev.attrs, a.value.value) else ev
  {
    var r := StepEvent(h, st, ev);
    if ev.Empty? && (ev.name == "path" || ev.name == "image") {
      var res := h(st.cache, st.metrics, ev.name, ev.attrs).0;
      if res.value.Some? {
        assert r.out[|st.out|] == Rewrite(ev.name, ev.attrs, res.value.value);
      }
    }
  }

  /** With `handle_xml` as the handler, only a `path` can stop the pass and
      only an `image` can change the map cache. */
  lemma StepWithHandleXml(env: Env, st: PassState, ev: Event)
    ensures var r := StepEvent(HandlerOf(env), st, ev);
      (r.error.Some? && st.error.None? ==> ev.Empty? && ev.name == "path")
      && (r.cache != st.cache ==> ev.Empty? && ev.name == "image")
  {
    var r := StepEvent(HandlerOf(env), st, ev);
    if ev.Start? || ev.Empty? {
      HandlerOfApplies(env, st.cache, st.metrics, ev.name, ev.attrs);
    }
  }

  /** The loop's state after the given events. */
  function Pass(h: Handler, cache0: MapCache, events: seq<Event>): (r: PassState)
    ensures r.error.None? ==> |r.out| == |events|
  {
    if |events| == 0 then PassState([], None, None, cache0, None)
    else StepEvent(h, Pass(h, cache0, events[..|events| - 1]), events[|events| - 1])
  }

  /** `apply_context_xml`: the written events, or the failure it panics on. */
  function ApplySpec(h: Handler, cache0: MapCache, doc: Document): (r: Result<seq<Event>>)
    ensures r.Success? ==> !doc.malformed && |r.value| == |doc.events|
  {
    var st := Pass(h, cache0, doc.events);
    if st.error.Some? then Failure(st.error.value)
    else if doc.malformed then Failure(MalformedError)
    else Success(st.out)
  }

  lemma PassStep(h: Handler, cache0: MapCache, events: seq<Event>, i: nat)
    requires i < |events|
    ensures Pass(h, cache0, events[..i + 1]) == StepEvent(h, Pass(h, cache0, events[..i]), events[i])
  {
    assert events[..i + 1][..i] == events[..i];
  }

  /** Once the handler fails, nothing else happens. */
  lemma {:induction false} ErrorSticks(h: Handler, cache0: MapCache, events: seq<Event>, i: nat, j: nat)
    requires i <= j <= |events|
    requires Pass(h, cache0, events[..i]).error.Some?
    ensures Pass(h, cache0, events[..j]) == Pass(h, cache0, events[..i])
    decreases j
  {
    if j > i {
      ErrorSticks(h, cache0, events, i, j - 1);
      PassStep(h, cache0, events, j - 1);
    }
  }

  /** Without a failure, the events written for a prefix stay the beginning
      of the output. */
  lemma {:induction false} OutExtends(h: Handler, cache0: MapCache, events: seq<Event>, lo: nat, hi: nat)
    requires lo <= hi <= |events|
    requires Pass(h, cache0, events[..hi]).error.None?
    ensures Pass(h, cache0, events[..lo]).error.None?
    ensures Pass(h, cache0, events[..hi]).out[..lo] == Pass(h, cache0, events[..lo]).out
    decreases hi
  {
    if hi > lo {
      PassStep(h, cache0, events, hi - 1);
      OutExtends(h, cache0, events, lo, hi - 1);
      PrefixOfPrefix(Pass(h, cache0, events[..hi]).out, Pass(h, cache0, events[..hi - 1]).out, lo);
    }
  }

  lemma PrefixOfPrefix<T>(a: seq<T>, b: seq<T>, n: nat)
    requires n <= |b| <= |a| && a[..|b|] == b
    ensures a[..n] == b[..n]
  {
    assert a[..|b|][..n] == a[..n];
  }

  /** A pass over all the events without failure gives the events it wrote,
      unless the reader failed. */
  lemma SuccessDecides(h: Handler, cache0: MapCache, doc: Document, i: nat)
    requires i == |doc.events| && Pass(h, cache0, doc.events[..i]).error.None?
    ensures ApplySpec(h, cache0, doc) ==
      if doc.malformed then Failure(MalformedError) else Success(Pass(h, cache0, doc.events[..i]).out)
    ensures Pass(h, cache0, doc.events).cache == Pass(h, cache0, doc.events[..i]).cache
  {
    assert doc.events[..i] == doc.events;
  }

  /** A failure at event `i` is the pass's result, and fixes the final cache. */
  lemma ErrorDecides(h: Handler, cache0: MapCache, doc: Document, i: nat)
    requires i <= |doc.events| && Pass(h, cache0, doc.events[..i]).error.Some?
    ensures ApplySpec(h, cache0, doc) == Failure(Pass(h, cache0, doc.events[..i]).error.value)
    ensures Pass(h, cache0, doc.events).cache == Pass(h, cache0, doc.events[..i]).cache
  {
    ErrorSticks(h, cache0, doc.events, i, |doc.events|);
    assert doc.events[..|doc.events|] == doc.events;
  }

  /** The output event at `i` is already written after the first `i + 1`
      events. */
  lemma OutAt(h: Handler, cache0: MapCache, events: seq<Event>, i: nat)
    requires i < |events|
    requires Pass(h, cache0, events).error.None?
    ensures Pass(h, cache0, events[..i + 1]).error.None?
    ensures |Pass(h, cache0, events[..i + 1]).out| == i + 1
    ensures Pass(h, cache0, events).out[i] == Pass(h, cache0, events[..i + 1]).out[i]
  {
    assert events[..|events|] == events;
    OutExtends(h, cache0, events, i + 1, |events|);
    assert Pass(h, cache0, events).out[..i + 1][i] == Pass(h, cache0, events).out[i];
  }

  /** An empty `path` or `image` element is written rewritten with the
      handler's answer on the state the pass has reached, or as it is when
      the handler answers nothing. */
  lemma ElementAt(h: Handler, cache0: MapCache, events: seq<Event>, i: nat)
    requires i < |events| && events[i].Empty? && (events[i].name == "path" || events[i].name == "image")
    requires Pass(h, cache0, events).error.None?
    ensures var st := Pass(h, cache0, events[..i]);
      var a := h(st.cache, st.metrics, events[i].name, events[i].attrs).0;
      a.Success? && Pass(h, cache0, events).out[i] ==
        if a.value.Some? then Rewrite(events[i].name, events[i].attrs, a.value.value) else events[i]
  {
    OutAt(h, cache0, events, i);
    PassStep(h, cache0, events, i);
    var st := Pass(h, cache0, events[..i]);
    assert st.error.None? && |st.out| == i;
  }

  /** In a document that goes through, the elevation path's `d` is replaced
      by the elevation profile whenever its old `d` parses. */
  lemma PathReplaced(env: Env, cache0: MapCache, doc: Document, i: nat)
    requires i < |doc.events| && doc.events[i].Empty? && doc.events[i].name == "path"
    requires env.data.Some? && GetAttribute(doc.events[i].attrs, "id") == Some("path_elevation")
    requires GetAttribute(doc.events[i].attrs, "d").Some?
    requires InputPathSpec(GetAttribute(doc.events[i].attrs, "d").value).Success?
    requires ApplySpec(HandlerOf(env), cache0, doc).Success?
    ensures var attrs := doc.events[i].attrs;
      var inp := InputPathSpec(GetAttribute(attrs, "d").value).value;
      PathFor(env.data, "path_elevation", inp, env.display).Some?
      && ApplySpec(HandlerOf(env), cache0, doc).value[i]
        == Rewrite("path", attrs, PathFor(env.data, "path_elevation", inp, env.display).value)
  {
    var st := Pass(HandlerOf(env), cache0, doc.events[..i]);
    ElementAt(HandlerOf(env), cache0, doc.events, i);
    HandlerOfApplies(env, st.cache, st.metrics, "path", doc.events[i].attrs);
    HandlePath(env, st.cache, st.metrics, doc.events[i].attrs);
  }

  /** In a document that goes through, the map image links to the map the
      lookup gives for its size and the track colour, on the cache the pass
      has reached; it is kept as it is only when no map can be rendered. */
  lemma ImageReplaced(env: Env, cache0: MapCache, doc: Document, i: nat)
    requires i < |doc.events| && doc.events[i].Empty? && doc.events[i].name == "image"
    requires env.data.Some? && GetAttribute(doc.events[i].attrs, "id") == Some("image_map")
    requires ImageRequest(doc.events[i].attrs, Pass(HandlerOf(env), cache0, doc.events[..i]).metrics,
                          "image_map", env.trackColor).Some?
    requires ApplySpec(HandlerOf(env), cache0, doc).Success?
    ensures var st := Pass(HandlerOf(env), cache0, doc.events[..i]);
      var attrs := doc.events[i].attrs;
      var q := ImageRequest(attrs, st.metrics, "image_map", env.trackColor).value;
      var link := ImageLookup(env.backend, env.data, st.cache, "image_map", q.0, q.1, q.2).0;
      ApplySpec(HandlerOf(env), cache0, doc).value[i] == if link.Some? then Rewrite("image", attrs, link.value) else doc.events[i]
  {
    var st := Pass(HandlerOf(env), cache0, doc.events[..i]);
    var attrs := doc.events[i].attrs;
    var q := ImageRequest(attrs, st.metrics, "image_map", env.trackColor).value;
    ElementAt(HandlerOf(env), cache0, doc.events, i);
    HandlerOfApplies(env, st.cache, st.metrics, "image", attrs);
    HandleImage(env, st.cache, st.metrics, attrs, q);
  }

  /** Every output event stands for the input event at the same place. */
  lemma {:induction false} PassCorresponds(h: Handler, cache0: MapCache, events: seq<Event>)
    requires Pass(h, cache0, events).error.None?
    ensures |Pass(h, cache0, events).out| == |events|
    ensures forall i :: 0 <= i < |events| ==> Corresponds(events[i], Pass(h, cache0, events).out[i])
  {
    if |events| > 0 {
      var n := |events|;
      var prev := events[..n - 1];
      var st := Pass(h, cache0, prev);
      var r := Pass(h, cache0, events);
      assert r == StepEvent(h, st, events[n - 1]);
      StepCorresponds(h, st, events[n - 1]);
      PassCorresponds(h, cache0, prev);
      CorrespondsExtend(events, r.out, st.out);
    }
  }

  lemma CorrespondsExtend(events: seq<Event>, out: seq<Event>, prevOut: seq<Event>)
    requires |events| == |out| > 0 && out[..|out| - 1] == prevOut
    requires forall i :: 0 <= i < |prevOut| ==> Corresponds(events[..|events| - 1][i], prevOut[i])
    requires Corresponds(events[|events| - 1], out[|out| - 1])
    ensures forall i :: 0 <= i < |events| ==> Corresponds(events[i], out[i])
  {
    forall i | 0 <= i < |events| - 1 ensures Corresponds(events[i], out[i]) {
      assert out[..|out| - 1][i] == out[i];
      assert events[..|events| - 1][i] == events[i];
    }
  }

  /** A pass whose handler succeeds on every element it is asked about
      never fails. */
  lemma {:induction false} NoErrorWhenHandled(h: Handler, cache0: MapCache, events: seq<Event>)
    requires forall k, c, m :: 0 <= k < |events| && Handled(events[k]) ==>
      h(c, m, events[k].name, events[k].attrs).0.Success?
    ensures Pass(h, cache0, events).error.None?
  {
    if |events| > 0 {
      var prev := events[..|events| - 1];
      forall k, c, m | 0 <= k < |prev| && Handled(prev[k])
        ensures h(c, m, prev[k].name, prev[k].attrs).0.Success?
      {
        assert prev[k] == events[k];
      }
      NoErrorWhenHandled(h, cache0, prev);
      var st := Pass(h, cache0, prev);
      var ev := events[|events| - 1];
      if Handled(ev) {
        assert h(st.cache, st.metrics, ev.name, ev.attrs).0.Success?;
      }
    }
  }

  /** Only a `path` element whose `d` does not parse can stop the pass. */
  lemma NoErrorWithoutPaths(env: Env, cache0: MapCache, events: seq<Event>)
    requires forall k :: 0 <= k < |events| ==> !(events[k].Empty? && events[k].name == "path")
    ensures Pass(HandlerOf(env), cache0, events).error.None?
  {
    forall k, c, m | 0 <= k < |events| && Handled(events[k])
      ensures HandlerOf(env)(c, m, events[k].name, events[k].attrs).0.Success?
    {
      HandlerOfApplies(env, c, m, events[k].name, events[k].attrs);
    }
    NoErrorWhenHandled(HandlerOf(env), cache0, events);
  }

  predicate IsTspanStart(ev: Event) {
    ev.Start? && ev.name == "tspan"
  }

  /** The elements the pass hands to `handle_xml`. */
  predicate Handled(ev: Event) {
    IsTspanStart(ev) || (ev.Empty? && (ev.name == "path" || ev.name == "image"))
  }

  /** A text node takes the pending value, and only once. */
  lemma TextTakesSlot(h: Handler, cache0: MapCache, events: seq<Event>, i: nat)
    requires i < |events| && events[i].Text?
    requires Pass(h, cache0, events[..i + 1]).error.None?
    ensures var before := Pass(h, cache0, events[..i]);
      var after := Pass(h, cache0, events[..i + 1]);
      after.pending.None?
      && after.out[i] == if before.pending.Some? then Text(before.pending.value) else events[i]
  {
    PassStep(h, cache0, events, i);
  }

  /** Events that are neither text nor a `tspan` start leave the pending
      value alone. */
  lemma {:induction false} PendingCarries(h: Handler, cache0: MapCache, events: seq<Event>, lo: nat, hi: nat)
    requires lo <= hi <= |events|
    requires forall k :: lo <= k < hi ==> !events[k].Text? && !IsTspanStart(events[k])
    requires Pass(h, cache0, events[..hi]).error.None?
    ensures Pass(h, cache0, events[..hi]).pending == Pass(h, cache0, events[..lo]).pending
    decreases hi
  {
    if hi > lo {
      var ev := events[hi - 1];
      var st := Pass(h, cache0, events[..hi - 1]);
      assert !ev.Text? && !IsTspanStart(ev);
      PassStep(h, cache0, events, hi - 1);
      CarryStep(h, st, ev);
      PendingCarries(h, cache0, events, lo, hi - 1);
      assert Pass(h, cache0, events[..hi]).pending == st.pending;
    }
  }

  lemma CarryStep(h: Handler, st: PassState, ev: Event)
    requires !ev.Text? && !IsTspanStart(ev)
    requires StepEvent(h, st, ev).error.None?
    ensures st.error.None? && StepEvent(h, st, ev).pending == st.pending
  {
  }

  /** Without a `tspan` start, nothing becomes pending. */
  lemma {:induction false} PendingStaysNone(h: Handler, cache0: MapCache, events: seq<Event>, lo: nat, hi: nat)
    requires lo <= hi <= |events|
    requires forall k :: lo <= k < hi ==> !IsTspanStart(events[k])
    requires Pass(h, cache0, events[..lo]).pending.None?
    requires Pass(h, cache0, events[..hi]).error.None?
    ensures Pass(h, cache0, events[..hi]).pending.None?
    decreases hi
  {
    if hi > lo {
      PassStep(h, cache0, events, hi - 1);
      PendingStaysNone(h, cache0, events, lo, hi - 1);
    }
  }

  /** A `tspan` start makes the handler's answer for it pending. */
  lemma TspanSetsPending(h: Handler, cache0: MapCache, events: seq<Event>, j: nat, v: Option<string>)
    requires j < |events| && IsTspanStart(events[j])
    requires forall c, m :: h(c, m, "tspan", events[j].attrs).0 == Success(v)
    requires Pass(h, cache0, events[..j + 1]).error.None?
    ensures Pass(h, cache0, events[..j + 1]).pending == v
  {
    PassStep(h, cache0, events, j);
    var st := Pass(h, cache0, events[..j]);
    assert h(st.cache, st.metrics, "tspan", events[j].attrs).0 == Success(v);
  }

  /** What `handle_xml` answers for a `tspan`, whatever the cache and metrics. */
  lemma TspanAnswer(env: Env, attrs: seq<Attr>)
    ensures var id := GetAttribute(attrs, "id");
      forall c, m :: HandlerOf(env)(c, m, "tspan", attrs).0 ==
        Success(if id.Some? then GetString(env.data, id.value) else None)
  {
    forall c, m ensures HandlerOf(env)(c, m, "tspan", attrs).0 ==
      Success(if GetAttribute(attrs, "id").Some? then GetString(env.data, GetAttribute(attrs, "id").value) else None)
    {
      HandlerOfApplies(env, c, m, "tspan", attrs);
    }
  }

  /** The value of a known `tspan` replaces the next text node, provided no
      other text node or `tspan` start comes in between; an unknown id
      leaves that text as it is. */
  lemma TspanFillsNextText(env: Env, cache0: MapCache, events: seq<Event>, j: nat, i: nat)
    requires j < i < |events|
    requires IsTspanStart(events[j]) && events[i].Text?
    requires forall k :: j < k < i ==> !events[k].Text? && !IsTspanStart(events[k])
    requires Pass(HandlerOf(env), cache0, events).error.None?
    ensures var id := GetAttribute(events[j].attrs, "id");
      Pass(HandlerOf(env), cache0, events).out[i] ==
        if id.Some? && GetString(env.data, id.value).Some? then Text(GetString(env.data, id.value).value) else events[i]
  {
    var id := GetAttribute(events[j].attrs, "id");
    TspanAnswer(env, events[j].attrs);
    OutAt(HandlerOf(env), cache0, events, i);
    TspanFillsAt(HandlerOf(env), cache0, events, j, i, if id.Some? then GetString(env.data, id.value) else None);
  }

  lemma TspanFillsAt(h: Handler, cache0: MapCache, events: seq<Event>, j: nat, i: nat, v: Option<string>)
    requires j < i < |events|
    requires IsTspanStart(events[j]) && events[i].Text?
    requires forall c, m :: h(c, m, "tspan", events[j].attrs).0 == Success(v)
    requires forall k :: j < k < i ==> !events[k].Text? && !IsTspanStart(events[k])
    requires Pass(h, cache0, events[..i + 1]).error.None?
    ensures Pass(h, cache0, events[..i + 1]).out[i] == if v.Some? then Text(v.value) else events[i]
  {
    OutExtends(h, cache0, events, i, i + 1);
    PendingAt(h, cache0, events, j, i, v);
    TextTakesSlot(h, cache0, events, i);
  }

  /** The `tspan`'s answer is still pending when the pass reaches `i`. */
  lemma PendingAt(h: Handler, cache0: MapCache, events: seq<Event>, j: nat, i: nat, v: Option<string>)
    requires j < i <= |events| && IsTspanStart(events[j])
    requires forall c, m :: h(c, m, "tspan", events[j].attrs).0 == Success(v)
    requires forall k :: j < k < i ==> !events[k].Text? && !IsTspanStart(events[k])
    requires Pass(h, cache0, events[..i]).error.None?
    ensures Pass(h, cache0, events[..i]).pending == v
  {
    OutExtends(h, cache0, events, j + 1, i);
    TspanSetsPending(h, cache0, events, j, v);
    PendingCarries(h, cache0, events, j + 1, i);
  }

  /** A text node with no `tspan` start since the previous text node (or
      since the beginning) is written as it is. */
  lemma TextWithoutTspanKept(h: Handler, cache0: MapCache, events: seq<Event>, lo: nat, i: nat)
    requires lo <= i < |events| && events[i].Text?
    requires lo == 0 || events[lo - 1].Text?
    requires forall k :: lo <= k < i ==> !IsTspanStart(events[k])
    requires Pass(h, cache0, events).error.None?
    ensures Pass(h, cache0, events).out[i] == events[i]
  {
    OutAt(h, cache0, events, i);
    TextKeptAt(h, cache0, events, lo, i);
  }

  lemma TextKeptAt(h: Handler, cache0: MapCache, events: seq<Event>, lo: nat, i: nat)
    requires lo <= i < |events| && events[i].Text?
    requires lo == 0 || events[lo - 1].Text?
    requires forall k :: lo <= k < i ==> !IsTspanStart(events[k])
    requires Pass(h, cache0, events[..i + 1]).error.None?
    ensures Pass(h, cache0, events[..i + 1]).out[i] == events[i]
  {
    OutExtends(h, cache0, events, i, i + 1);
    OutExtends(h, cache0, events, lo, i);
    SlotEmptyAfterText(h, cache0, events, lo);
    PendingStaysNone(h, cache0, events, lo, i);
    TextTakesSlot(h, cache0, events, i);
  }

  /** Nothing is pending at the start or right after a text node. */
  lemma SlotEmptyAfterText(h: Handler, cache0: MapCache, events: seq<Event>, lo: nat)
    requires lo <= |events| && (lo == 0 || events[lo - 1].Text?)
    requires Pass(h, cache0, events[..lo]).error.None?
    ensures Pass(h, cache0, events[..lo]).pending.None?
  {
    if lo == 0 {
      assert events[..0] == [];
    } else {
      TextTakesSlot(h, cache0, events, lo - 1);
    }
  }

  /** Once metrics are known, later `svg` start tags do not change them. */
  lemma {:induction false} MetricsKept(h: Handler, cache0: MapCache, events: seq<Event>, lo: nat, hi: nat)
    requires lo <= hi <= |events|
    requires Pass(h, cache0, events[..lo]).metrics.Some?
    ensures Pass(h, cache0, events[..hi]).metrics == Pass(h, cache0, events[..lo]).metrics
    decreases hi
  {
    if hi > lo {
      MetricsKept(h, cache0, events, lo, hi - 1);
      PassStep(h, cache0, events, hi - 1);
      KeepMetricsStep(h, Pass(h, cache0, events[..hi - 1]), events[hi - 1]);
    }
  }

  lemma KeepMetricsStep(h: Handler, st: PassState, ev: Event)
    requires st.metrics.Some?
    ensures StepEvent(h, st, ev).metrics == st.metrics
  {
  }

  lemma {:induction false} MetricsNoneBeforeSvg(h: Handler, cache0: MapCache, events: seq<Event>, hi: nat)
    requires hi <= |events|
    requires forall k :: 0 <= k < hi ==> !(events[k].Start? && events[k].name == "svg")
    ensures Pass(h, cache0, events[..hi]).metrics.None?
  {
    if hi > 0 {
      PassStep(h, cache0, events, hi - 1);
      MetricsNoneBeforeSvg(h, cache0, events, hi - 1);
    }
  }

  /** The metrics come from the first `svg` start tag, when it has them. */
  lemma FirstSvgMetrics(h: Handler, cache0: MapCache, events: seq<Event>, j: nat)
    requires j < |events| && events[j].Start? && events[j].name == "svg"
    requires forall k :: 0 <= k < j ==> !(events[k].Start? && events[k].name == "svg")
    requires Pass(h, cache0, events[..j]).error.None?
    ensures Pass(h, cache0, events[..j + 1]).metrics == MetricsFrom(events[j].attrs)
  {
    MetricsNoneBeforeSvg(h, cache0, events, j);
    PassStep(h, cache0, events, j);
  }

  /** An event the handler has nothing to say about: no id the context
      knows, and a `d` that parses on every `path` with an id. */
  predicate Inert(ev: Event) {
    match ev
    case Start(name, attrs) =>
      name == "tspan" ==> GetAttribute(attrs, "id").None? || GetAttribute(attrs, "id").value !in StringKeys
    case Empty(name, attrs) =>
      (name == "path" ==>
        (GetAttribute(attrs, "id").None?
         || (GetAttribute(attrs, "id").value != "path_elevation"
             && (GetAttribute(attrs, "d").None? || InputPathSpec(GetAttribute(attrs, "d").value).Success?))))
      && (name == "image" ==> GetAttribute(attrs, "id").None? || GetAttribute(attrs, "id").value != "image_map")
    case _ => true
  }

  /** `handle_xml` answers no replacement for an inert element. */
  lemma InertAnswer(env: Env, cache: MapCache, metrics: Option<SvgMetrics>, ev: Event)
    requires Inert(ev) && Handled(ev)
    ensures HandleSpec(env, cache, metrics, ev.name, ev.attrs).0 == Success(None)
  {
    var r := HandleSpec(env, cache, metrics, ev.name, ev.attrs);
    var id := GetAttribute(ev.attrs, "id");
    if id.Some? {
      if ev.Start? && ev.name == "tspan" {
        assert GetString(env.data, id.value).None?;
      } else if ev.Empty? && ev.name == "path" {
        var d := GetAttribute(ev.attrs, "d");
        if d.Some? {
          var inp := InputPathSpec(d.value);
          assert inp.Success?;
          assert PathFor(env.data, id.value, inp.value, env.display).None?;
          assert r == (Success(PathFor(env.data, id.value, inp.value, env.display)), cache);
        }
      }
    }
  }

  /** Elements the handler leaves alone are written back unchanged. */
  lemma {:induction false} InertUnchanged(h: Handler, cache0: MapCache, events: seq<Event>)
    requires forall k, c, m :: 0 <= k < |events| && Handled(events[k]) ==>
      h(c, m, events[k].name, events[k].attrs).0 == Success(None)
    ensures Pass(h, cache0, events).error.None?
    ensures Pass(h, cache0, events).out == events && Pass(h, cache0, events).pending.None?
  {
    if |events| > 0 {
      var prev := events[..|events| - 1];
      InertPrefix(h, events);
      InertUnchanged(h, cache0, prev);
      InertLast(h, cache0, events);
    }
  }

  lemma InertPrefix(h: Handler, events: seq<Event>)
    requires |events| > 0
    requires forall k, c, m :: 0 <= k < |events| && Handled(events[k]) ==>
      h(c, m, events[k].name, events[k].attrs).0 == Success(None)
    ensures var prev := events[..|events| - 1];
      forall k, c, m :: 0 <= k < |prev| && Handled(prev[k]) ==>
        h(c, m, prev[k].name, prev[k].attrs).0 == Success(None)
  {
    var prev := events[..|events| - 1];
    forall k, c, m | 0 <= k < |prev| && Handled(prev[k])
      ensures h(c, m, prev[k].name, prev[k].attrs).0 == Success(None)
    {
      assert prev[k] == events[k];
    }
  }

  lemma InertLast(h: Handler, cache0: MapCache, events: seq<Event>)
    requires |events| > 0
    requires var ev := events[|events| - 1];
      Handled(ev) ==> forall c, m :: h(c, m, ev.name, ev.attrs).0 == Success(None)
    requires var st := Pass(h, cache0, events[..|events| - 1]);
      st.error.None? && st.out == events[..|events| - 1] && st.pending.None?
    ensures Pass(h, cache0, events).error.None?
    ensures Pass(h, cache0, events).out == events && Pass(h, cache0, events).pending.None?
  {
    var st := Pass(h, cache0, events[..|events| - 1]);
    UntouchedStep(h, st, events[|events| - 1]);
    ButLastThenLast(events);
  }

  lemma UntouchedStep(h: Handler, st: PassState, ev: Event)
    requires st.error.None? && st.pending.None?
    requires Handled(ev) ==> h(st.cache, st.metrics, ev.name, ev.attrs).0 == Success(None)
    ensures var r := StepEvent(h, st, ev);
      r.error.None? && r.out == st.out + [ev] && r.pending.None?
  {
  }

  /** A template without known ids is written back identically, unless the
      reader failed on it. */
  lemma InertDocument(env: Env, cache0: MapCache, doc: Document)
    requires forall k :: 0 <= k < |doc.events| ==> Inert(doc.events[k])
    ensures ApplySpec(HandlerOf(env), cache0, doc) == if doc.malformed then Failure(MalformedError) else Success(doc.events)
  {
    var events := doc.events;
    forall k, c, m | 0 <= k < |events| && Handled(events[k])
      ensures HandlerOf(env)(c, m, events[k].name, events[k].attrs).0 == Success(None)
    {
      HandlerOfApplies(env, c, m, events[k].name, events[k].attrs);
      InertAnswer(env, c, m, events[k]);
    }
    InertUnchanged(HandlerOf(env), cache0, events);
  }

  /** The unit test `parse_xml_1`: the text inside the `value_distance` span
      becomes the distance in whole kilometres. */
  lemma DistanceTextAnchor(env: Env, cache0: MapCache, d: ContextData, k: string, events: seq<Event>)
    requires env.data == Some(d) && 21500.0 <= d.distance <= 22500.0 && k == "value_distance"
    requires events == [Start("text", [Attr("id", "text_distanza")]), Start("tspan", [Attr("id", k)]),
                        Text("132"), End("tspan"), End("text")]
    ensures ApplySpec(HandlerOf(env), cache0, Document(events, false)) == Success(events[2 := Text("22km")])
  {
    var h := HandlerOf(env);
    NoErrorWithoutPaths(env, cache0, events);
    PassCorresponds(h, cache0, events);
    DistanceAnchor(d, k);
    assert GetAttribute(events[1].attrs, "id") == Some(k);
    TspanFillsNextText(env, cache0, events, 1, 2);
    var out := Pass(h, cache0, events).out;
    assert out[2] == Text("22km");
    assert out[0] == events[0] && out[1] == events[1] && out[3] == events[3] && out[4] == events[4];
    assert out == events[2 := Text("22km")];
  }

  /** One turn of `apply_context_xml`'s loop on the context's own state. */
  method ApplyEvent(ctx: Context, trackColor: Option<Color>, out: seq<Event>, pending: Option<string>,
                    metrics: Option<SvgMetrics>, ev: Event)
    returns (out': seq<Event>, pending': Option<string>, metrics': Option<SvgMetrics>, error: Option<string>)
    modifies ctx
    ensures ctx.data == old(ctx.data)
    ensures StepEvent(HandlerOf(Env(ctx.data, ctx.backend, ctx.display, trackColor)),
                      PassState(out, pending, metrics, old(ctx.Cache()), None), ev)
      == PassState(out', pending', metrics', ctx.Cache(), error)
  {
    ghost var env := Env(ctx.data, ctx.backend, ctx.display, trackColor);
    out', pending', metrics', error := out, pending, metrics, None;
    if ev.Start? || ev.Empty? {
      HandlerOfApplies(env, ctx.Cache(), metrics, ev.name, ev.attrs);
    }
    match ev {
      case Start(name, attrs) =>
        if name == "svg" {
          if metrics.None? {
            metrics' := MetricsFrom(attrs);
          }
          out' := out + [ev];
        } else if name == "tspan" {
          var res := HandleXml(ctx, name, attrs, metrics, trackColor);
          pending' := res.value;
          out' := out + [ev];
        } else {
          out' := out + [ev];
        }
      case Empty(name, attrs) =>
        if name == "path" || name == "image" {
          var res := HandleXml(ctx, name, attrs, metrics, trackColor);
          if res.Failure? {
            error := Some(res.error);
          } else if res.value.Some? {
            out' := out + [Rewrite(name, attrs, res.value.value)];
          } else {
            out' := out + [ev];
          }
        } else {
          out' := out + [ev];
        }
      case Text(t) =>
        out' := out + [Text(if pending.Some? then pending.value else t)];
        pending' := None;
      case End(_) =>
        out' := out + [ev];
      case Other(_) =>
        out' := out + [ev];
    }
  }

  /** `apply_context_xml`: the track colour first, then one pass over the
      events; the map cache the context ends with is the pass's. */
  method ApplyContextXml(ctx: Context, doc: Document) returns (r: Result<seq<Event>>)
    modifies ctx
    ensures ctx.data == old(ctx.data)
    ensures var h := HandlerOf(Env(ctx.data, ctx.backend, ctx.display, TrackColorOf(doc.events)));
      r == ApplySpec(h, old(ctx.Cache()), doc) && ctx.Cache() == Pass(h, old(ctx.Cache()), doc.events).cache
  {
    var trackColor := ExtractTrackColor(doc);
    ghost var h := HandlerOf(Env(ctx.data, ctx.backend, ctx.display, trackColor));
    ghost var cache0 := ctx.Cache();
    var out: seq<Event> := [];
    var pending: Option<string> := None;
    var metrics: Option<SvgMetrics> := None;
    var i := 0;
    assert doc.events[..0] == [];
    while i < |doc.events|
      invariant 0 <= i <= |doc.events|
      invariant ctx.data == old(ctx.data)
      invariant Pass(h, cache0, doc.events[..i]) == PassState(out, pending, metrics, ctx.Cache(), None)
    {
      var out', pending', metrics', error := ApplyEvent(ctx, trackColor, out, pending, metrics, doc.events[i]);
      PassStep(h, cache0, doc.events, i);
      if error.Some? {
        ErrorDecides(h, cache0, doc, i + 1);
        return Failure(error.value);
      }
      out, pending, metrics := out', pending', metrics';
      i := i + 1;
    }
    SuccessDecides(h, cache0, doc, i);
    if doc.malformed {
      return Failure(MalformedError);
    }
    return Success(out);
  }
}
