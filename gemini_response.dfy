/** Post-processing of the recognition service's reply
    (services/geminiService.ts, `extractDataFromImage`, lines 76-97): the
    reply text is trimmed, stripped of a Markdown code fence, parsed, and
    turned into a list of row objects. The network call is left out: the
    reply text and the JSON parser are inputs. */
module GeminiResponse {
  import opened Seqs
  import opened Types

  /** The one message every failure of the extraction surfaces with. */
  const ExtractFailure: string := "Failed to extract data from image. The API call failed."

  // ---------------------------------------------------------------------
  // Whitespace, as `String.prototype.trim` and the regular expression
  // class `\s` see it: ECMAScript's WhiteSpace and LineTerminator.

  predicate IsJsSpace(c: char) {
    var n := c as int;
    || n == 0x09 || n == 0x0A || n == 0x0B || n == 0x0C || n == 0x0D || n == 0x20
    || n == 0xA0 || n == 0x1680 || (0x2000 <= n <= 0x200A)
    || n == 0x2028 || n == 0x2029 || n == 0x202F || n == 0x205F || n == 0x3000 || n == 0xFEFF
  }

  predicate AllSpaces(s: string) {
    forall i :: 0 <= i < |s| ==> IsJsSpace(s[i])
  }

  /** The number of whitespace characters `s` starts with. */
  function LeadingSpaces(s: string): (n: nat)
    ensures n <= |s|
    ensures forall i :: 0 <= i < n ==> IsJsSpace(s[i])
    ensures n < |s| ==> !IsJsSpace(s[n])
  {
    if s == [] || !IsJsSpace(s[0]) then 0
    else LeadingSpaces(s[1..]) + 1
  }

  /** The number of whitespace characters `s` ends with. */
  function TrailingSpaces(s: string): (n: nat)
    ensures n <= |s|
    ensures forall i :: |s| - n <= i < |s| ==> IsJsSpace(s[i])
    ensures n < |s| ==> !IsJsSpace(s[|s| - n - 1])
  {
    if s == [] || !IsJsSpace(Last(s)) then 0
    else TrailingSpaces(DropLast(s)) + 1
  }

  /** Whitespace followed by a non-space is counted exactly. */
  lemma LeadingSpacesOf(space: string, rest: string)
    requires AllSpaces(space)
    requires rest == [] || !IsJsSpace(rest[0])
    ensures LeadingSpaces(space + rest) == |space|
  {
    var s := space + rest;
    assert forall i :: 0 <= i < |space| ==> s[i] == space[i];
    if rest != [] {
      assert s[|space|] == rest[0];
    }
  }

  /** A non-space followed by whitespace: the whitespace is counted exactly. */
  lemma TrailingSpacesOf(rest: string, space: string)
    requires AllSpaces(space)
    requires rest == [] || !IsJsSpace(Last(rest))
    ensures TrailingSpaces(rest + space) == |space|
  {
    var s := rest + space;
    assert forall i :: |rest| <= i < |s| ==> s[i] == space[i - |rest|];
    if rest != [] {
      assert s[|rest| - 1] == Last(rest);
    }
  }

  /** `s.trim()`. */
  function Trim(s: string): (r: string)
    ensures |r| <= |s|
    ensures r == [] || (!IsJsSpace(r[0]) && !IsJsSpace(Last(r)))
  {
    var lead := LeadingSpaces(s);
    if lead == |s| then []
    else
      var trail := TrailingSpaces(s);
      s[lead..|s| - trail]
  }

  /** The reference for `Trim`: whitespace around a text that neither starts
      nor ends with whitespace is all that is removed. */
  lemma TrimRemovesSurroundingSpace(before: string, body: string, after: string)
    requires AllSpaces(before) && AllSpaces(after)
    requires body == [] || (!IsJsSpace(body[0]) && !IsJsSpace(Last(body)))
    ensures Trim(before + body + after) == body
  {
    if body == [] {
      TrimAllSpace(before, after);
      assert before + body + after == before + after;
    } else {
      var s := before + (body + after);
      assert before + body + after == s;
      assert (body + after)[0] == body[0];
      LeadingSpacesOf(before, body + after);
      assert s == (before + body) + after;
      assert Last(before + body) == Last(body);
      TrailingSpacesOf(before + body, after);
      assert s[|before|..|s| - |after|] == body;
    }
  }

  lemma TrimAllSpace(before: string, after: string)
    requires AllSpaces(before) && AllSpaces(after)
    ensures Trim(before + after) == []
  {
    var s := before + after;
    assert AllSpaces(s) by {
      assert forall i :: 0 <= i < |before| ==> s[i] == before[i];
      assert forall i :: |before| <= i < |s| ==> s[i] == after[i - |before|];
    }
    assert s == s + [];
    LeadingSpacesOf(s, []);
  }

  /** Trimming twice is trimming once. */
  lemma TrimIdempotent(s: string)
    ensures Trim(Trim(s)) == Trim(s)
  {
    TrimRemovesSurroundingSpace([], Trim(s), []);
    assert [] + Trim(s) + [] == Trim(s);
  }

  // ---------------------------------------------------------------------
  // The code fence: `text.replace(/^```json\s*|```\s*$/g, '')`.

  const JsonFence: string := "```json"
  const Fence: string := "```"

  /** A match of the first alternative, `^```json\s*`, which is greedy: it
      ends at `e`, after all the whitespace that follows the fence. */
  predicate OpeningMatch(t: string, e: nat) {
    && StartsWith(t, JsonFence) && 7 <= e <= |t| && AllSpaces(t[7..e])
    && (e < |t| ==> !IsJsSpace(t[e]))
  }

  /** A match of the second alternative, ```` ```\s*$ ````, starting at `p`. */
  predicate ClosingMatch(t: string, p: nat) {
    p + 3 <= |t| && t[p..p + 3] == Fence && AllSpaces(t[p + 3..])
  }

  /** Where the text left after the replacement starts and stops. */
  function FenceBounds(t: string): (bounds: (nat, nat))
    ensures bounds.0 <= bounds.1 <= |t|
  {
    var start := if StartsWith(t, JsonFence) then 7 + LeadingSpaces(t[7..]) else 0;
    var w := TrailingSpaces(t);
    var stop := if |t| - w - 3 >= start && t[|t| - w - 3..|t| - w] == Fence then |t| - w - 3 else |t|;
    (start, stop)
  }

  function StripFences(t: string): (r: string)
    ensures |r| <= |t|
  {
    t[FenceBounds(t).0..FenceBounds(t).1]
  }

  /** A closing fence can only sit just before the trailing whitespace. */
  lemma ClosingMatchPosition(t: string, p: nat)
    ensures ClosingMatch(t, p) ==> p == |t| - TrailingSpaces(t) - 3
  {
    if ClosingMatch(t, p) {
      assert t[p + 2] == t[p..p + 3][2] == '`';
      assert forall i :: p + 3 <= i < |t| ==> t[i] == t[p + 3..][i - (p + 3)];
    }
  }

  /** The two cuts are the regular expression's matches: the opening fence
      with its whitespace when the text starts with it, and the leftmost
      closing fence after that, when there is one. */
  lemma StripFencesMatches(t: string)
    ensures StartsWith(t, JsonFence) ==> OpeningMatch(t, FenceBounds(t).0)
    ensures !StartsWith(t, JsonFence) ==> FenceBounds(t).0 == 0
    ensures FenceBounds(t).1 < |t| ==> ClosingMatch(t, FenceBounds(t).1)
    ensures forall p :: FenceBounds(t).0 <= p < FenceBounds(t).1 ==> !ClosingMatch(t, p)
  {
    OpeningBound(t);
    ClosingBound(t);
    forall p | FenceBounds(t).0 <= p < FenceBounds(t).1 ensures !ClosingMatch(t, p) {
      ClosingMatchPosition(t, p);
    }
  }

  lemma OpeningBound(t: string)
    ensures StartsWith(t, JsonFence) ==> OpeningMatch(t, FenceBounds(t).0)
  {
    if StartsWith(t, JsonFence) {
      var n := LeadingSpaces(t[7..]);
      assert forall i :: 0 <= i < n ==> t[7..7 + n][i] == t[7..][i];
    }
  }

  lemma ClosingBound(t: string)
    ensures FenceBounds(t).1 < |t| ==> ClosingMatch(t, FenceBounds(t).1)
  {
    var stop := FenceBounds(t).1;
    if stop < |t| {
      assert forall i :: stop + 3 <= i < |t| ==> t[i] == t[stop + 3..][i - (stop + 3)];
    }
  }

  /** A body wrapped in the fence comes out as it went in. */
  lemma UnwrapsFencedBody(space: string, body: string)
    requires AllSpaces(space)
    requires body == [] || !IsJsSpace(body[0])
    ensures StripFences(JsonFence + space + body + Fence) == body
  {
    var t := JsonFence + space + body + Fence;
    FencedStart(space, body);
    FencedStop(space, body);
    assert t[7 + |space|..|t| - 3] == body;
  }

  /** The opening cut of a fenced body falls just after the whitespace. */
  lemma FencedStart(space: string, body: string)
    requires AllSpaces(space)
    requires body == [] || !IsJsSpace(body[0])
    ensures FenceBounds(JsonFence + space + body + Fence).0 == 7 + |space|
  {
    var t := JsonFence + space + body + Fence;
    assert StartsWith(t, JsonFence) by { assert t[..7] == JsonFence; }
    assert t[7..] == space + (body + Fence);
    assert (body + Fence)[0] == if body == [] then '`' else body[0];
    LeadingSpacesOf(space, body + Fence);
  }

  /** The closing cut of a fenced body falls just before the closing fence. */
  lemma FencedStop(space: string, body: string)
    requires AllSpaces(space)
    requires body == [] || !IsJsSpace(body[0])
    ensures FenceBounds(JsonFence + space + body + Fence).1 == |JsonFence + space + body + Fence| - 3
  {
    var t := JsonFence + space + body + Fence;
    FencedStart(space, body);
    TrailingSpacesOf(t, []);
    assert t + [] == t;
    assert t[|t| - 3..|t|] == Fence;
  }

  /** Text with neither fence passes through unchanged. */
  lemma KeepsUnfencedText(t: string)
    requires !StartsWith(t, JsonFence)
    requires t == [] || !IsJsSpace(Last(t))
    requires |t| < 3 || t[|t| - 3..] != Fence
    ensures StripFences(t) == t
  {
    assert TrailingSpaces(t) == 0;
    assert t[0..|t|] == t;
  }

  // ---------------------------------------------------------------------
  // From the parsed value to the rows.

  /** `Object.keys(v).length`, or `None` where `Object.keys` throws (`null`).
      A string has one key per character, an array one per element. */
  function KeyCount(v: Json): Option<nat> {
    match v
    case JNull => None
    case JStr(s) => Some(|s|)
    case JNum(_) => Some(0)
    case JBool(_) => Some(0)
    case JObj(fields) => Some(|fields|)
    case JArr(items) => Some(|items|)
  }

  predicate HasKeys(v: Json) {
    KeyCount(v).Some? && KeyCount(v).value > 0
  }

  /** `items.filter(row => Object.keys(row).length > 0)`: the elements with
      at least one key, in order; `None` when the callback throws. */
  function KeepRowsWithKeys(items: seq<Json>): (kept: Option<seq<Json>>)
    ensures kept.Some? ==> |kept.value| <= |items|
    ensures kept.Some? ==> forall v :: v in kept.value ==> v in items && HasKeys(v)
  {
    if items == [] then Some([])
    else
      match KeyCount(items[0])
      case None => None
      case Some(n) =>
        match KeepRowsWithKeys(items[1..])
        case None => None
        case Some(kept) => Some(if n > 0 then [items[0]] + kept else kept)
  }

  /** The value a successful parse is turned into: an array is filtered, an
      object on its own becomes a one-element list, anything else fails. */
  function RowsOf(parsed: Json): (rows: Option<seq<Json>>)
    ensures rows.Some? <==> parsed.JObj? || (parsed.JArr? && JNull !in parsed.items)
  {
    match parsed
    case JArr(items) => KeepFailsOnNull(items); KeepRowsWithKeys(items)
    case JObj(_) => Some([parsed])
    case _ => None
  }

  /** `extractDataFromImage` after the service call. `responseText` is the
      reply's `text` (`None` when it has none, so `trim` throws); `parse`
      is `JSON.parse` (`None` when it throws). Every error is replaced by
      the one failure message. */
  function ExtractData(responseText: Option<string>, parse: string -> Option<Json>): (r: Result<seq<Json>, string>)
    ensures r.Err? ==> r.error == ExtractFailure
  {
    match responseText
    case None => Err(ExtractFailure)
    case Some(text) =>
      var jsonText := Trim(text);
      if jsonText == [] then Ok([])
      else
        match parse(StripFences(jsonText))
        case None => Err(ExtractFailure)
        case Some(parsed) =>
          match RowsOf(parsed)
          case None => Err(ExtractFailure)
          case Some(rows) => Ok(rows)
  }

  // ---------------------------------------------------------------------
  // What the filter does.

  /** The filter throws exactly when some element is `null`. */
  lemma {:induction false} KeepFailsOnNull(items: seq<Json>)
    ensures KeepRowsWithKeys(items).None? <==> JNull in items
  {
    if items != [] {
      KeepFailsOnNull(items[1..]);
      assert JNull in items <==> items[0] == JNull || JNull in items[1..];
    }
  }

  /** Filtering a concatenation filters each part. */
  lemma {:induction false} KeepDistributes(a: seq<Json>, b: seq<Json>)
    requires JNull !in a + b
    ensures KeepRowsWithKeys(a).Some? && KeepRowsWithKeys(b).Some?
    ensures KeepRowsWithKeys(a + b) == Some(KeepRowsWithKeys(a).value + KeepRowsWithKeys(b).value)
  {
    KeepFailsOnNull(a);
    KeepFailsOnNull(b);
    if a == [] {
      assert a + b == b;
      assert KeepRowsWithKeys(a).value + KeepRowsWithKeys(b).value == KeepRowsWithKeys(b).value;
    } else {
      assert (a + b)[0] == a[0] && (a + b)[1..] == a[1..] + b;
      KeepDistributes(a[1..], b);
      var n := KeyCount(a[0]).value;
      var rest := KeepRowsWithKeys(a[1..]).value;
      assert KeepRowsWithKeys(a) == Some(if n > 0 then [a[0]] + rest else rest);
      var kb := KeepRowsWithKeys(b).value;
      assert KeepRowsWithKeys(a + b) == Some(if n > 0 then [a[0]] + (rest + kb) else rest + kb);
      assert [a[0]] + (rest + kb) == ([a[0]] + rest) + kb;
    }
  }

  /** One element is kept exactly when it has a key. */
  lemma KeepOne(v: Json)
    requires v != JNull
    ensures KeepRowsWithKeys([v]) == Some(if HasKeys(v) then [v] else [])
  {
    assert [v][1..] == [];
    assert [v] + [] == [v];
    assert KeepRowsWithKeys([v]) == Some(if HasKeys(v) then [v] + [] else []);
  }

  /** What is kept are elements with keys, and every element with keys is kept. */
  lemma {:induction false} KeepMembers(items: seq<Json>)
    requires JNull !in items
    ensures KeepRowsWithKeys(items).Some?
    ensures forall v :: v in KeepRowsWithKeys(items).value <==> v in items && HasKeys(v)
    ensures |KeepRowsWithKeys(items).value| <= |items|
  {
    KeepFailsOnNull(items);
    if items != [] {
      KeepMembers(items[1..]);
      assert forall v :: v in items <==> v == items[0] || v in items[1..];
    }
  }

  // ---------------------------------------------------------------------
  // The extraction as a whole.

  /** A reply that is empty after trimming gives no rows, and the parser is
      never consulted. */
  lemma EmptyReplyHasNoRows(text: string, parse: string -> Option<Json>)
    requires Trim(text) == []
    ensures ExtractData(Some(text), parse) == Ok([])
  {
  }

  /** A reply without text fails. */
  lemma MissingReplyFails(parse: string -> Option<Json>)
    ensures ExtractData(None, parse) == Err(ExtractFailure)
  {
  }

  /** A fenced reply is parsed without its fence and the space around it;
      whitespace between the body and the closing fence stays with the
      body, as the regular expression leaves it. */
  lemma ParsesFencedBody(before: string, space: string, body: string, after: string, parse: string -> Option<Json>)
    requires AllSpaces(before) && AllSpaces(space) && AllSpaces(after)
    requires body == [] || !IsJsSpace(body[0])
    ensures ExtractData(Some(before + (JsonFence + space + body + Fence) + after), parse)
         == match parse(body)
            case None => Err(ExtractFailure)
            case Some(parsed) => if RowsOf(parsed).Some? then Ok(RowsOf(parsed).value) else Err(ExtractFailure)
  {
    var fenced := JsonFence + space + body + Fence;
    assert fenced[0] == '`' && Last(fenced) == '`';
    TrimRemovesSurroundingSpace(before, fenced, after);
    UnwrapsFencedBody(space, body);
  }

  /** A lone object, even an empty one, is one row. */
  lemma LoneObjectIsOneRow(text: string, parse: string -> Option<Json>, fields: seq<(string, Json)>)
    requires Trim(text) != []
    requires parse(StripFences(Trim(text))) == Some(JObj(fields))
    ensures ExtractData(Some(text), parse) == Ok([JObj(fields)])
  {
  }

  /** A parsed value that is neither an array nor an object, `null`
      included, fails. */
  lemma ScalarFails(text: string, parse: string -> Option<Json>)
    requires Trim(text) != []
    requires parse(StripFences(Trim(text))).Some?
    requires !parse(StripFences(Trim(text))).value.JArr? && !parse(StripFences(Trim(text))).value.JObj?
    ensures ExtractData(Some(text), parse) == Err(ExtractFailure)
  {
  }

  /** A parsed array yields its elements with keys, in order; a `null`
      element makes the whole extraction fail. */
  lemma ArrayIsFiltered(text: string, parse: string -> Option<Json>, items: seq<Json>)
    requires Trim(text) != []
    requires parse(StripFences(Trim(text))) == Some(JArr(items))
    ensures ExtractData(Some(text), parse).Err? <==> JNull in items
    ensures JNull !in items ==> KeepRowsWithKeys(items).Some?
    ensures JNull !in items ==> ExtractData(Some(text), parse) == Ok(KeepRowsWithKeys(items).value)
    ensures ExtractData(Some(text), parse).Ok? ==>
      forall v :: v in ExtractData(Some(text), parse).value <==> v in items && HasKeys(v)
  {
    KeepFailsOnNull(items);
    if JNull !in items {
      KeepMembers(items);
    }
  }
}
