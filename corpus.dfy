/**
 * Selection of the texts to index from the decoded corpus file
 * (api/create_vector_store.py, lines 23-39).
 *
 * The corpus must be a non-empty list of records. The first record alone
 * decides the format: with `titulo` and `texto` it is titled, with `texto`
 * only it is plain. Every record whose `texto` (default "") is blank is
 * dropped; a kept record contributes its `texto` unchanged, prefixed by
 * `titulo + ". "` in the titled format. The first failure in list order
 * aborts the whole load.
 */
module Corpus {
  import opened Wrappers
  import opened Text
  import opened Json

  datatype Format = Titled | Plain

  /** Why a load fails. The record-level errors carry the position of the
      record that raised them. */
  datatype CorpusError =
    | EmptyOrInvalid           // ValueError: the value is not a list, or is empty
    | FormatNotRecognised      // ValueError: the first record has no `texto`
    | NotIterable              // TypeError: `in` applied to a null, boolean or number first record
    | RecordNotObject(at: nat) // AttributeError: a record that is not a dict has no `get`
    | TextNotString(at: nat)   // AttributeError: a `texto` that is not a string has no `strip`
    | MissingTitle(at: nat)    // KeyError: a kept record of the titled format has no `titulo`

  /** `e` is raised while the comprehension visits the record at position `at`. */
  predicate RaisedBy(e: CorpusError, at: nat) {
    (e.RecordNotObject? || e.TextNotString? || e.MissingTitle?) && e.at == at
  }

  /** The text of the two ValueErrors the script raises itself (lines 36
      and 38); the other errors carry the interpreter's own messages. */
  function ValueErrorMessage(e: CorpusError): (m: Option<string>)
    ensures m.Some? <==> e == EmptyOrInvalid || e == FormatNotRecognised
    ensures m.Some? ==> |m.value| > 0
  {
    match e
    case EmptyOrInvalid => Some("Arquivo JSON vazio ou formato inv\U{E1}lido!")
    case FormatNotRecognised => Some("Formato JSON n\U{E3}o reconhecido!")
    case _ => None
  }

  const TitleKey := "titulo"
  const TextKey := "texto"
  const TitleSeparator := ". "

  /** The format the first record announces. */
  function DetectFormat(first: Json): (r: Result<Format, CorpusError>)
    ensures first.JObject? ==>
      && (r == Success(Titled) <==> TitleKey in first.fields && TextKey in first.fields)
      && (r == Success(Plain) <==> TitleKey !in first.fields && TextKey in first.fields)
      && (r == Failure(FormatNotRecognised) <==> TextKey !in first.fields)
    ensures r == Failure(NotIterable) <==> first.JNull? || first.JBool? || first.JNumber?
    ensures r.Failure? ==> r.error == FormatNotRecognised || r.error == NotIterable
  {
    match In(first, TitleKey)
    case None => Failure(NotIterable)
    case Some(hasTitle) =>
      var hasText := In(first, TextKey) == Some(true);
      if hasTitle && hasText then Success(Titled)
      else if hasText then Success(Plain)
      else Failure(FormatNotRecognised)
  }

  /** The `texto` of a record, `""` when absent, as `item.get('texto', '')` reads it. */
  function TextOf(fields: map<string, Json>): Json {
    Get(fields, TextKey, JString(""))
  }

  /** Python's `str(v)` inside an f-string: a string is itself; every other
      value is formatted by the interpreter, here the parameter `pyStr`. */
  function Show(v: Json, pyStr: Json -> string): string {
    match v
    case JString(s) => s
    case _ => pyStr(v)
  }

  /** A record the comprehension keeps: a dict whose `texto` is a string with
      a non-space character. */
  predicate Kept(item: Json) {
    item.JObject? && TextOf(item.fields).JString? && !AllSpace(TextOf(item.fields).s)
  }

  /** One record, the one at position `at`, through the comprehension: `None`
      when the filter drops it, the text it contributes when kept, or the
      exception it raises. */
  function RecordText(item: Json, fmt: Format, at: nat, pyStr: Json -> string): (r: Result<Option<string>, CorpusError>)
    ensures r.Failure? ==> RaisedBy(r.error, at)
  {
    match item
    case JObject(fields) =>
      (match TextOf(fields)
       case JString(t) =>
         if Blank(t) then Success(None)
         else if fmt.Plain? then Success(Some(t))
         else if TitleKey in fields then Success(Some(Show(fields[TitleKey], pyStr) + TitleSeparator + t))
         else Failure(MissingTitle(at))
       case _ => Failure(TextNotString(at)))
    case _ => Failure(RecordNotObject(at))
  }

  /** A record is dropped exactly when it is a dict whose `texto` is a blank
      string, and kept exactly when `Kept` holds and, in the titled format, it
      has a title; a kept plain record contributes its `texto` unstripped, a
      kept titled record `titulo + ". " + texto`. */
  lemma RecordTextSpec(item: Json, fmt: Format, at: nat, pyStr: Json -> string)
    ensures var r := RecordText(item, fmt, at, pyStr);
      && (r == Success(None) <==> item.JObject? && TextOf(item.fields).JString? && AllSpace(TextOf(item.fields).s))
      && (r.Success? && r.value.Some? <==> Kept(item) && (fmt.Titled? ==> TitleKey in item.fields))
      && (r.Success? && r.value.Some? && fmt.Plain? ==> r.value.value == item.fields[TextKey].s)
      && (r.Success? && r.value.Some? && fmt.Titled? ==>
            r.value.value == Show(item.fields[TitleKey], pyStr) + TitleSeparator + item.fields[TextKey].s)
  {
  }

  /** The comprehension over `items[i..]`, in list order. */
  function ExtractFrom(items: seq<Json>, fmt: Format, pyStr: Json -> string, i: nat): (r: Result<seq<string>, CorpusError>)
    requires i <= |items|
    ensures r.Success? ==> |r.value| <= |items| - i
    ensures r.Failure? ==> exists k :: i <= k < |items| && RaisedBy(r.error, k)
    decreases |items| - i
  {
    if i == |items| then Success([])
    else
      match RecordText(items[i], fmt, i, pyStr)
      case Failure(e) => Failure(e)
      case Success(kept) =>
        match ExtractFrom(items, fmt, pyStr, i + 1)
        case Failure(e) => Failure(e)
        case Success(rest) => Success(if kept.Some? then [kept.value] + rest else rest)
  }

  /** The whole of lines 23-39: from the decoded file to the list `texts`.
      A failure is the exception that ends the script; for the two errors
      the script raises itself, `ValueErrorMessage` gives its text. */
  function LoadTexts(data: Json, pyStr: Json -> string): (r: Result<seq<string>, CorpusError>)
    ensures r == Failure(EmptyOrInvalid) <==> !data.JArray? || |data.items| == 0
    ensures r.Success? ==> data.JArray? && |r.value| <= |data.items|
    ensures r.Success? ==> data.items[0].JObject? && TextKey in data.items[0].fields
  {
    if data.JArray? && |data.items| > 0 then
      match DetectFormat(data.items[0])
      case Failure(e) => Failure(e)
      case Success(fmt) => ExtractFrom(data.items, fmt, pyStr, 0)
    else Failure(EmptyOrInvalid)
  }

  /** The format of a corpus that loaded: the one its first record announces. */
  function FormatOf(first: Json): Format {
    if first.JObject? && TitleKey in first.fields then Titled else Plain
  }

  /** `idx` lists, in increasing order, exactly the positions of the kept records of `items[i..]`. */
  ghost predicate SelectsKept(items: seq<Json>, i: nat, idx: seq<nat>) {
    && (forall a :: 0 <= a < |idx| ==> i <= idx[a] < |items|)
    && (forall a, b :: 0 <= a < b < |idx| ==> idx[a] < idx[b])
    && (forall k :: i <= k < |items| ==> (Kept(items[k]) <==> k in idx))
  }

  /** Extending a selection of `items[i + 1..]` by a kept record at `i`. */
  lemma SelectsKeptTake(items: seq<Json>, i: nat, idx: seq<nat>)
    requires i < |items| && Kept(items[i]) && SelectsKept(items, i + 1, idx)
    ensures SelectsKept(items, i, [i] + idx)
  {
    var idx' := [i] + idx;
    forall k | i <= k < |items| ensures Kept(items[k]) <==> k in idx' {
      if k > i {
        assert k in idx' <==> k in idx;
      }
    }
  }

  /** A selection of `items[i + 1..]` is one of `items[i..]` when record `i` is dropped. */
  lemma SelectsKeptSkip(items: seq<Json>, i: nat, idx: seq<nat>)
    requires i < |items| && !Kept(items[i]) && SelectsKept(items, i + 1, idx)
    ensures SelectsKept(items, i, idx)
  {
  }

  /** The comprehension succeeds exactly when no record raises. */
  lemma {:induction false} ExtractSucceedsIff(items: seq<Json>, fmt: Format, pyStr: Json -> string, i: nat)
    requires i <= |items|
    ensures ExtractFrom(items, fmt, pyStr, i).Success? <==>
      forall k :: i <= k < |items| ==> RecordText(items[k], fmt, k, pyStr).Success?
    decreases |items| - i
  {
    if i < |items| {
      var first := RecordText(items[i], fmt, i, pyStr);
      if first.Failure? {
        assert ExtractFrom(items, fmt, pyStr, i) == Failure(first.error);
        assert !RecordText(items[i], fmt, i, pyStr).Success?;
      } else {
        ExtractSucceedsIff(items, fmt, pyStr, i + 1);
        assert ExtractFrom(items, fmt, pyStr, i).Success? <==> ExtractFrom(items, fmt, pyStr, i + 1).Success?;
      }
    }
  }

  /** A failed comprehension reports the first record that raises. */
  lemma {:induction false} ExtractFailsAtFirst(items: seq<Json>, fmt: Format, pyStr: Json -> string, i: nat)
    requires i <= |items|
    requires ExtractFrom(items, fmt, pyStr, i).Failure?
    ensures exists k :: && i <= k < |items|
                        && RecordText(items[k], fmt, k, pyStr) == Failure(ExtractFrom(items, fmt, pyStr, i).error)
                        && forall j :: i <= j < k ==> RecordText(items[j], fmt, j, pyStr).Success?
    decreases |items| - i
  {
    if RecordText(items[i], fmt, i, pyStr).Success? {
      ExtractFailsAtFirst(items, fmt, pyStr, i + 1);
    }
  }

  /** `text` is what the kept record `item` contributes in format `fmt`:
      its `texto` unchanged, after `titulo + ". "` in the titled format. */
  ghost predicate Rendered(item: Json, fmt: Format, pyStr: Json -> string, text: string) {
    && item.JObject? && TextKey in item.fields && item.fields[TextKey].JString?
    && (fmt.Titled? ==> TitleKey in item.fields)
    && text == if fmt.Titled? then Show(item.fields[TitleKey], pyStr) + TitleSeparator + item.fields[TextKey].s
               else item.fields[TextKey].s
  }

  /** A successful comprehension yields the texts of exactly the kept
      records, each once, in their original order, each rendered in `fmt`. */
  lemma {:induction false} ExtractSelects(items: seq<Json>, fmt: Format, pyStr: Json -> string, i: nat)
    requires i <= |items|
    requires ExtractFrom(items, fmt, pyStr, i).Success?
    ensures var texts := ExtractFrom(items, fmt, pyStr, i).value;
      exists idx :: && SelectsKept(items, i, idx) && |idx| == |texts|
                    && forall a :: 0 <= a < |idx| ==> Rendered(items[idx[a]], fmt, pyStr, texts[a])
    decreases |items| - i
  {
    var texts := ExtractFrom(items, fmt, pyStr, i).value;
    if i == |items| {
      assert SelectsKept(items, i, []);
    } else {
      var kept := RecordText(items[i], fmt, i, pyStr).value;
      var rest := ExtractFrom(items, fmt, pyStr, i + 1).value;
      ExtractSelects(items, fmt, pyStr, i + 1);
      RecordTextSpec(items[i], fmt, i, pyStr);
      var idx :| && SelectsKept(items, i + 1, idx) && |idx| == |rest|
                 && forall a :: 0 <= a < |idx| ==> Rendered(items[idx[a]], fmt, pyStr, rest[a]);
      if kept.Some? {
        assert texts == [kept.value] + rest;
        SelectsKeptTake(items, i, idx);
        RenderedTake(items, fmt, pyStr, i, kept.value, idx, rest);
      } else {
        assert texts == rest;
        SelectsKeptSkip(items, i, idx);
      }
    }
  }

  /** Extending the rendered selection of `items[i + 1..]` by record `i`. */
  lemma RenderedTake(items: seq<Json>, fmt: Format, pyStr: Json -> string, i: nat, text: string, idx: seq<nat>, rest: seq<string>)
    requires i < |items| && Rendered(items[i], fmt, pyStr, text) && |idx| == |rest|
    requires forall a :: 0 <= a < |idx| ==> idx[a] < |items| && Rendered(items[idx[a]], fmt, pyStr, rest[a])
    ensures forall a :: 0 <= a < |idx| + 1 ==> ([i] + idx)[a] < |items| && Rendered(items[([i] + idx)[a]], fmt, pyStr, ([text] + rest)[a])
  {
    forall a | 0 <= a < |idx| + 1
      ensures ([i] + idx)[a] < |items| && Rendered(items[([i] + idx)[a]], fmt, pyStr, ([text] + rest)[a])
    {
      if a > 0 {
        assert ([i] + idx)[a] == idx[a - 1] && ([text] + rest)[a] == rest[a - 1];
      }
    }
  }

  /** What a successful load yields: the kept records, in order, each
      rendered in the format its first record announces. */
  lemma LoadTextsSpec(data: Json, pyStr: Json -> string)
    requires LoadTexts(data, pyStr).Success?
    ensures var texts := LoadTexts(data, pyStr).value;
      exists idx :: && SelectsKept(data.items, 0, idx) && |idx| == |texts|
                    && forall a :: 0 <= a < |idx| ==> Rendered(data.items[idx[a]], FormatOf(data.items[0]), pyStr, texts[a])
  {
    var fmt := DetectFormat(data.items[0]).value;
    assert fmt == FormatOf(data.items[0]);
    ExtractSelects(data.items, fmt, pyStr, 0);
  }
}
