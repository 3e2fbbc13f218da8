/**
 * The server's XSS middleware (server/index.js): `sanitizeInput`, the
 * recursive in-place `sanitizeObject`, and the loop over the query string.
 *
 * A request is a class whose `query` and `body` the middleware overwrites.
 * The body is a tree of values: the in-place recursion of `sanitizeObject`
 * over nested objects is modelled as computing the rewritten tree, so shared
 * or cyclic sub-objects are not part of this model.
 */
module ServerSanitize {
  import opened Text
  import opened Sanitize

  /** `sanitizeInput`: strings are escaped with the same five entities in the same order; anything else is returned as it is. */
  function SanitizeServerInput(input: JsValue): (r: JsValue)
    ensures !input.Str? ==> r == input
    ensures input.Str? ==> r == Str(Escape(input.s))
  {
    if input.Str? then Str(Escape(input.s)) else input
  }

  /** The server and browser escapers agree on every string, the empty one included. */
  lemma ServerEscapesLikeClient(s: string)
    ensures SanitizeServerInput(Str(s)) == Str(SanitizeString(Str(s)))
    ensures SanitizeServerInput(Str(s)) == SanitizeInput(Str(s))
  {
  }

  /**
   * What `sanitizeObject(obj)` leaves behind: nothing changes unless `obj` is
   * an object; then every string property is escaped and every object
   * property rewritten the same way, at any depth.
   */
  function RewriteInPlace(obj: JsValue): (r: JsValue)
    ensures !obj.Obj? ==> r == obj
    ensures obj.Obj? ==> r.Obj? && r.props.Keys == obj.props.Keys
    decreases obj
  {
    match obj
    case Obj(props) =>
      Obj(map k | k in props :: if props[k].Str? then SanitizeServerInput(props[k]) else RewriteInPlace(props[k]))
    case _ => obj
  }

  /** The server's in-place rewrite leaves the same tree as the browser's copying `sanitizeObject`. */
  lemma {:induction false} ServerObjectLikeClient(obj: JsValue)
    ensures RewriteInPlace(obj) == SanitizeValue(obj)
    decreases obj
  {
    if obj.Obj? {
      var props := obj.props;
      forall k | k in props ensures RewriteInPlace(obj).props[k] == SanitizeValue(obj).props[k] {
        var m := props[k];
        assert SanitizeValue(obj).props[k] == SanitizeMember(m);
        if !m.Str? {
          ServerObjectLikeClient(m);
        }
      }
    }
  }

  /** Only the properties are touched: keys stay, non-string leaves stay, strings are escaped. */
  lemma RewriteKeepsLeaves(obj: JsValue, k: string)
    requires obj.Obj? && k in obj.props
    ensures var v, w := obj.props[k], RewriteInPlace(obj).props[k];
            (v.Str? ==> w == Str(Escape(v.s)))
            && (!v.Str? && !v.Obj? ==> w == v)
            && (v.Obj? ==> w.Obj? && w.props.Keys == v.props.Keys)
  {
  }

  /** An Express request as far as the middleware sees it. */
  class Request {
    var query: map<string, JsValue>
    var body: JsValue

    constructor(query: map<string, JsValue>, body: JsValue)
      ensures this.query == query && this.body == body
    {
      this.query := query;
      this.body := body;
    }

    /**
     * The middleware: each string query parameter is replaced by its escaped
     * form, other query values are left as they are, and a truthy body is
     * rewritten by `sanitizeObject`.
     */
    method SanitizeRequest()
      modifies this
      ensures query.Keys == old(query).Keys
      ensures forall key :: key in query ==> query[key] == SanitizeServerInput(old(query)[key])
      ensures body == (if Falsy(old(body)) then old(body) else RewriteInPlace(old(body)))
    {
      var keys := query.Keys;
      ghost var original := query;
      while keys != {}
        invariant keys <= original.Keys && query.Keys == original.Keys
        invariant forall key :: key in original && key !in keys ==> query[key] == SanitizeServerInput(original[key])
        invariant forall key :: key in keys ==> query[key] == original[key]
        invariant body == old(body)
        decreases keys
      {
        var key :| key in keys;
        if query[key].Str? {
          query := query[key := SanitizeServerInput(query[key])];
        }
        keys := keys - {key};
      }
      if !Falsy(body) {
        body := RewriteInPlace(body);
      }
    }
  }

  /** After the middleware no string query parameter contains `<`, `>`, `"` or `'`, and decoding gives back what was sent. */
  lemma QueryClean(query: map<string, JsValue>, key: string)
    requires key in query && query[key].Str?
    ensures var v := SanitizeServerInput(query[key]);
            NoMarkup(v.s) && Unescape(v.s) == query[key].s
  {
    EscapeIsPerChar(query[key].s);
    UnescapeEscape(query[key].s);
  }
}
