/**
 * The result normaliser of the agent routes: total functions that pull usage
 * counters, a model name, the output text and a streaming delta out of the
 * loosely typed values the agent backend returns.
 */
module Normalizer {
  import opened Common
  import opened PyText
  import opened Values

  /** How a probed string must look to be taken: non-empty, or not blank after stripping. */
  datatype Test = NonEmpty | NonBlank

  predicate Accepts(test: Test, s: string)
  {
    match test
    case NonEmpty => s != []
    case NonBlank => !IsBlank(s)
  }

  /** Key `k` of `es` holds a string that `test` accepts. */
  predicate AcceptedAt(es: seq<(string, Value)>, k: string, test: Test)
  {
    Lookup(es, k).VStr? && Accepts(test, Lookup(es, k).s)
  }

  /**
   * The loop `for k in keys: v = lookup(k); if isinstance(v, str) and ok(v):
   * return v`: the string under the first key whose value passes `test`.
   */
  function FirstAccepted(es: seq<(string, Value)>, keys: seq<string>, test: Test): (r: Option<string>)
    ensures r.Some? ==> Accepts(test, r.value)
    ensures r.Some? ==> exists i :: 0 <= i < |keys| && Lookup(es, keys[i]) == VStr(r.value)
                          && forall j :: 0 <= j < i ==> !AcceptedAt(es, keys[j], test)
    ensures r.None? <==> forall i :: 0 <= i < |keys| ==> !AcceptedAt(es, keys[i], test)
  {
    if keys == [] then None
    else if AcceptedAt(es, keys[0], test) then Some(Lookup(es, keys[0]).s)
    else
      var r := FirstAccepted(es, keys[1..], test);
      assert forall i :: 1 <= i < |keys| ==> keys[i] == keys[1..][i - 1];
      r
  }

  // ---------------------------------------------------------------------------
  // Usage

  /** A usage dictionary: each of the three keys may be absent. */
  datatype Usage = Usage(input: Option<int>, output: Option<int>, total: Option<int>)

  /** The dictionary is non-empty (Python truthiness of the usage dict). */
  predicate HasAny(u: Usage)
  {
    u.input.Some? || u.output.Some? || u.total.Some?
  }

  /** `_as_int`: `None` and booleans are refused; otherwise `int(v)`, `None` when it raises. */
  function AsInt(v: Value): (r: Option<int>)
    ensures r.Some? <==> v.VInt? || (v.VStr? && ParseInt(v.s).Some?)
    ensures v.VInt? ==> r == Some(v.i)
  {
    if v.VNone? || v.VBool? then None else PyInt(v)
  }

  /** The outcome of calling a hook: its value, or `None` when it raises. */
  function Call(h: Hook): Value
    requires !h.Missing?
  {
    if h.Raises? then VNone else h.result
  }

  /**
   * Lines 189-202: a usage that is not a dictionary is replaced by its
   * `model_dump()`, and a non-`None` non-dictionary result of that by its
   * `dict()`; a hook that raises gives `None`.
   */
  function DumpUsage(u: Value): (r: Value)
    ensures u.VDict? ==> r == u
    ensures !u.VDict? && !u.VObj? ==> r == u
    ensures u.VObj? && u.modelDump.Raises? ==> r == VNone
    ensures u.VObj? && u.modelDump.Returns? && !u.modelDump.result.VObj? ==> r == u.modelDump.result
    ensures u.VObj? && u.modelDump.Missing? && u.dictMethod.Raises? ==> r == VNone
    ensures u.VObj? && u.modelDump.Missing? && u.dictMethod.Returns? ==> r == u.dictMethod.result
  {
    if u.VDict? then u
    else
      var dumped := if u.VObj? && !u.modelDump.Missing? then Call(u.modelDump) else u;
      if dumped.VObj? && !dumped.dictMethod.Missing? then Call(dumped.dictMethod) else dumped
  }

  const UsageKeys: seq<string> := ["input_tokens", "output_tokens", "total_tokens"]

  /**
   * Lines 186-221: a usage value becomes the dictionary of those of the three
   * keys whose values parse as non-boolean integers, or `None`.
   */
  function UsageOf(u: Value): (r: Option<Usage>)
    ensures !DumpUsage(u).VDict? ==> r.None?
    ensures u.VObj? && u.modelDump.Raises? ==> r.None?
    ensures var d := DumpUsage(u); d.VDict? ==>
      (r.Some? <==> AsInt(Get(d, "input_tokens")).Some? || AsInt(Get(d, "output_tokens")).Some?
                    || AsInt(Get(d, "total_tokens")).Some?)
    ensures var d := DumpUsage(u); r.Some? ==>
      r.value == Usage(AsInt(Get(d, "input_tokens")), AsInt(Get(d, "output_tokens")), AsInt(Get(d, "total_tokens")))
  {
    var d := DumpUsage(u);
    if !d.VDict? then None
    else
      var usage := Usage(AsInt(Get(d, "input_tokens")), AsInt(Get(d, "output_tokens")),
                         AsInt(Get(d, "total_tokens")));
      if HasAny(usage) then Some(usage) else None
  }

  /** `_extract_usage`: the top-level `usage` if present, else `response.usage`. */
  function ExtractUsage(obj: Value): (r: Option<Usage>)
    ensures obj.VNone? ==> r.None?
    ensures r.Some? ==> HasAny(r.value)
    ensures Field(obj, "usage") != VNone ==> r == UsageOf(Field(obj, "usage"))
    ensures Field(obj, "usage") == VNone ==> r == UsageOf(Field(Field(obj, "response"), "usage"))
  {
    if obj.VNone? then None
    else
      var top := Field(obj, "usage");
      var usage := if top != VNone then top else Field(Field(obj, "response"), "usage");
      UsageOf(usage)
  }

  /** One entry of the dictionary `_extract_usage` builds: present only when the count is. */
  function UsageEntry(k: string, n: Option<int>): seq<(string, Value)>
  {
    if n.Some? then [(k, VInt(n.value))] else []
  }

  /** The dictionary `_extract_usage` returns for `u`: the present keys, in their order. */
  function UsageDict(u: Usage): Value
  {
    VDict(UsageEntry("input_tokens", u.input) + UsageEntry("output_tokens", u.output)
          + UsageEntry("total_tokens", u.total))
  }

  /** Looking a key up past one `UsageEntry` piece. */
  lemma LookupUsageEntry(k: string, n: Option<int>, es: seq<(string, Value)>, key: string)
    ensures Lookup(UsageEntry(k, n) + es, key) ==
      if n.Some? && k == key then VInt(n.value) else Lookup(es, key)
  {
    if n.Some? {
      assert (UsageEntry(k, n) + es)[1..] == es;
    } else {
      assert UsageEntry(k, n) + es == es;
    }
  }

  /** Looking a key up in a dictionary built from `UsageEntry` pieces with distinct keys. */
  lemma LookupUsageEntries(k1: string, n1: Option<int>, k2: string, n2: Option<int>,
                           k3: string, n3: Option<int>, key: string)
    requires k1 != k2 && k1 != k3 && k2 != k3
    ensures var es := UsageEntry(k1, n1) + UsageEntry(k2, n2) + UsageEntry(k3, n3);
      Lookup(es, key) ==
        if key == k1 then (if n1.Some? then VInt(n1.value) else VNone)
        else if key == k2 then (if n2.Some? then VInt(n2.value) else VNone)
        else if key == k3 then (if n3.Some? then VInt(n3.value) else VNone)
        else VNone
  {
    var e1, e2, e3 := UsageEntry(k1, n1), UsageEntry(k2, n2), UsageEntry(k3, n3);
    assert e1 + e2 + e3 == e1 + (e2 + (e3 + []));
    LookupUsageEntry(k1, n1, e2 + (e3 + []), key);
    LookupUsageEntry(k2, n2, e3 + [], key);
    LookupUsageEntry(k3, n3, [], key);
  }

  /**
   * The dictionary `_extract_usage` returns, handed back as a top-level
   * `usage`, is read back unchanged: normalising is a round trip.
   */
  lemma UsageRoundTrip(u: Usage)
    requires HasAny(u)
    ensures ExtractUsage(VDict([("usage", UsageDict(u))])) == Some(u)
  {
    LookupUsageEntries("input_tokens", u.input, "output_tokens", u.output, "total_tokens", u.total, "input_tokens");
    LookupUsageEntries("input_tokens", u.input, "output_tokens", u.output, "total_tokens", u.total, "output_tokens");
    LookupUsageEntries("input_tokens", u.input, "output_tokens", u.output, "total_tokens", u.total, "total_tokens");
    var d := UsageDict(u);
    assert Get(d, "input_tokens") == (if u.input.Some? then VInt(u.input.value) else VNone);
    assert Get(d, "output_tokens") == (if u.output.Some? then VInt(u.output.value) else VNone);
    assert Get(d, "total_tokens") == (if u.total.Some? then VInt(u.total.value) else VNone);
    assert Field(VDict([("usage", d)]), "usage") == d;
  }

  /**
   * A top-level `usage` hides `response.usage`, even when the top-level one
   * holds no counts and the nested one does.
   */
  lemma TopLevelUsageWins(top: Value, u: Usage)
    requires top != VNone && UsageOf(top).None?
    ensures ExtractUsage(VDict([("usage", top), ("response", VDict([("usage", UsageDict(u))]))])) == None
  {
    var obj := VDict([("usage", top), ("response", VDict([("usage", UsageDict(u))]))]);
    assert Field(obj, "usage") == top;
  }

  // ---------------------------------------------------------------------------
  // Model name

  const ModelKeys: seq<string> := ["model", "model_name", "deployment", "deployment_name"]

  /** The first non-blank model string on `obj` itself: attributes first, then keys. */
  function OwnModel(obj: Value): (r: Option<string>)
    ensures r.Some? ==> !IsBlank(r.value)
    ensures FirstAccepted(AttrEntries(obj), ModelKeys, NonBlank).Some? ==>
      r == FirstAccepted(AttrEntries(obj), ModelKeys, NonBlank)
    ensures r.None? <==> forall i :: 0 <= i < |ModelKeys| ==>
      !AcceptedAt(AttrEntries(obj), ModelKeys[i], NonBlank) && !AcceptedAt(DictEntries(obj), ModelKeys[i], NonBlank)
  {
    var a := FirstAccepted(AttrEntries(obj), ModelKeys, NonBlank);
    if a.Some? then a else FirstAccepted(DictEntries(obj), ModelKeys, NonBlank)
  }

  /** `obj`, then its `response`, then that one's `response`, and so on while present. */
  ghost function ResponseChain(obj: Value): (c: seq<Value>)
    ensures |c| >= 1 && c[0] == obj
    decreases obj
  {
    var inner := Field(obj, "response");
    if inner.VNone? then [obj]
    else
      ResponsePart(obj);
      [obj] + ResponseChain(inner)
  }

  /** A `response` field is a part of the value that holds it. */
  lemma ResponsePart(obj: Value)
    requires Field(obj, "response") != VNone
    ensures Field(obj, "response") < obj
  {
    if Attr(obj, "response") != VNone {
      var i := KeyIndex(obj.attrs, "response");
      assert obj.attrs[i] in obj.attrs;
    } else {
      var i := KeyIndex(obj.entries, "response");
      assert obj.entries[i] in obj.entries;
    }
  }

  /**
   * `_extract_model_name`: the stripped first non-blank model string of `obj`
   * (attributes before keys), else the same search on its `response`.
   */
  function ExtractModelName(obj: Value): (r: Option<string>)
    ensures r.Some? ==> !IsBlank(r.value) && Strip(r.value) == r.value
    ensures !obj.VNone? && OwnModel(obj).Some? ==> r == Some(Strip(OwnModel(obj).value))
    decreases obj
  {
    if obj.VNone? then None
    else
      var own := OwnModel(obj);
      if own.Some? then
        StripEmptyIffBlank(own.value);
        StripEmptyIffBlank(Strip(own.value));
        StripIdempotent(own.value);
        Some(Strip(own.value))
      else
        var inner := Field(obj, "response");
        if inner.VNone? then None
        else
          ResponsePart(obj);
          ExtractModelName(inner)
  }

  /** The first model string carried by a value of `c`, stripped. */
  ghost function FirstModel(c: seq<Value>): (r: Option<string>)
    ensures r.None? <==> forall i :: 0 <= i < |c| ==> OwnModel(c[i]).None?
  {
    if c == [] then None
    else if OwnModel(c[0]).Some? then Some(Strip(OwnModel(c[0]).value))
    else
      assert forall i :: 1 <= i < |c| ==> c[i] == c[1..][i - 1];
      FirstModel(c[1..])
  }

  /**
   * The name is the first model string carried along the response chain, and
   * `None` exactly when no value of the chain carries one.
   */
  lemma {:induction false} ModelNameSearchesChain(obj: Value)
    requires !obj.VNone?
    ensures ExtractModelName(obj) == FirstModel(ResponseChain(obj))
    decreases obj
  {
    if OwnModel(obj).None? {
      var inner := Field(obj, "response");
      if !inner.VNone? {
        ResponsePart(obj);
        ModelNameSearchesChain(inner);
        assert ResponseChain(obj)[1..] == ResponseChain(inner);
      }
    }
  }

  // ---------------------------------------------------------------------------
  // Output text

  const TextAttrs: seq<string> := ["output_text", "text", "content"]
  const TextKeys: seq<string> := ["output_text", "text", "content", "message", "output"]

  /**
   * `_extract_text`: the first non-blank string among the `TextAttrs`
   * attributes, then among the `TextKeys` keys of a dictionary, else `str(result)`.
   * `render` stands for Python's `str` on values other than strings.
   */
  function ExtractText(result: Value, render: Value -> string): (r: string)
    ensures result.VNone? ==> r == []
    ensures !result.VNone? && FirstAccepted(AttrEntries(result), TextAttrs, NonBlank).Some? ==>
      r == FirstAccepted(AttrEntries(result), TextAttrs, NonBlank).value && !IsBlank(r)
    ensures result.VDict? && FirstAccepted(result.entries, TextKeys, NonBlank).Some? ==>
      r == FirstAccepted(result.entries, TextKeys, NonBlank).value && !IsBlank(r)
    ensures result.VStr? ==> r == result.s
    ensures (!result.VNone? && !result.VStr?
             && FirstAccepted(AttrEntries(result), TextAttrs, NonBlank).None?
             && FirstAccepted(DictEntries(result), TextKeys, NonBlank).None?) ==> r == render(result)
  {
    if result.VNone? then []
    else
      var a := FirstAccepted(AttrEntries(result), TextAttrs, NonBlank);
      if a.Some? then a.value
      else
        var d := FirstAccepted(DictEntries(result), TextKeys, NonBlank);
        if d.Some? then d.value
        else if result.VStr? then result.s
        else render(result)
  }

  /** A non-blank `output_text` at the head of a dictionary is the text, whatever follows it. */
  lemma OutputTextFirst(s: string, rest: seq<(string, Value)>, render: Value -> string)
    requires !IsBlank(s)
    ensures ExtractText(VDict([("output_text", VStr(s))] + rest), render) == s
  {
    var es := [("output_text", VStr(s))] + rest;
    assert Lookup(es, "output_text") == VStr(s);
  }

  /** A dictionary without any of the text keys is rendered whole. */
  lemma NoTextKeysRenders(es: seq<(string, Value)>, render: Value -> string)
    requires forall i :: 0 <= i < |es| ==> es[i].0 !in TextKeys
    ensures ExtractText(VDict(es), render) == render(VDict(es))
  {
    forall k | k in TextKeys
      ensures Lookup(es, k) == VNone
    {
    }
  }

  // ---------------------------------------------------------------------------
  // Streaming delta

  const PreferredKeys: seq<string> := ["delta", "text", "output_text", "content"]

  /** The depth below which `find_text` does not look. */
  const MaxDepth: nat := 6

  /**
   * `to_obj`: scalars, lists and dictionaries are kept; an object becomes the
   * result of `model_dump()`, else of `dict()`, else its attribute dictionary.
   */
  function ToObj(v: Value): (r: Value)
    ensures !v.VObj? ==> r == v
    ensures v.VObj? && v.modelDump.Returns? ==> r == v.modelDump.result
    ensures v.VObj? && !v.modelDump.Returns? && v.dictMethod.Returns? ==> r == v.dictMethod.result
    ensures v.VObj? && !v.modelDump.Returns? && !v.dictMethod.Returns? ==> r == VDict(v.attrs)
  {
    match v
    case VObj(attrs, md, dm) =>
      if md.Returns? then md.result
      else if dm.Returns? then dm.result
      else VDict(attrs)
    case _ => v
  }

  /**
   * The non-empty string `s` sits under a preferred key of a dictionary that
   * `node` reaches through dictionary values and list items, with the
   * dictionary no deeper than `MaxDepth` when `node` is at `depth`.
   */
  ghost predicate Reaches(node: Value, depth: nat, s: string)
    decreases MaxDepth + 1 - depth
  {
    s != [] && depth <= MaxDepth &&
    match node
    case VDict(es) =>
      (exists j :: 0 <= j < |PreferredKeys| && Lookup(es, PreferredKeys[j]) == VStr(s))
      || (exists i :: 0 <= i < |es| && Reaches(es[i].1, depth + 1, s))
    case VList(xs) => exists i :: 0 <= i < |xs| && Reaches(xs[i], depth + 1, s)
    case _ => false
  }

  /** The strings under `keys`, in the order of `keys`, that `test` accepts. */
  ghost function KeyCandidates(es: seq<(string, Value)>, keys: seq<string>, test: Test): seq<string>
  {
    if keys == [] then []
    else (if AcceptedAt(es, keys[0], test) then [Lookup(es, keys[0]).s] else [])
         + KeyCandidates(es, keys[1..], test)
  }

  /** The loop over `keys` returns the first of the accepted strings. */
  lemma {:induction false} FirstAcceptedIsFirstCandidate(es: seq<(string, Value)>, keys: seq<string>, test: Test)
    ensures var c := KeyCandidates(es, keys, test);
      FirstAccepted(es, keys, test) == if c == [] then None else Some(c[0])
  {
    if keys != [] && !AcceptedAt(es, keys[0], test) {
      FirstAcceptedIsFirstCandidate(es, keys[1..], test);
    }
  }

  /**
   * Every non-empty preferred-key string reachable from `node` at `depth`, in
   * the order a depth-first search meets them: a dictionary's preferred keys
   * in preference order, then what its values reach in insertion order; a
   * list's items in order.
   */
  ghost function Candidates(node: Value, depth: nat): seq<string>
    decreases MaxDepth + 1 - depth, 1, 0
  {
    if depth > MaxDepth then []
    else
      match node
      case VDict(es) => KeyCandidates(es, PreferredKeys, NonEmpty) + EntryCandidates(es, depth + 1)
      case VList(xs) => ItemCandidates(xs, depth + 1)
      case _ => []
  }

  ghost function EntryCandidates(es: seq<(string, Value)>, depth: nat): seq<string>
    requires 1 <= depth <= MaxDepth + 1
    decreases MaxDepth + 2 - depth, 0, |es|
  {
    if es == [] then [] else Candidates(es[0].1, depth) + EntryCandidates(es[1..], depth)
  }

  ghost function ItemCandidates(xs: seq<Value>, depth: nat): seq<string>
    requires 1 <= depth <= MaxDepth + 1
    decreases MaxDepth + 2 - depth, 0, |xs|
  {
    if xs == [] then [] else Candidates(xs[0], depth) + ItemCandidates(xs[1..], depth)
  }

  /**
   * `find_text`: depth first, a dictionary's preferred keys before its values
   * (in insertion order), list items in order; "" when nothing is found.
   */
  function FindText(node: Value, depth: nat): string
    decreases MaxDepth + 1 - depth, 1, 0
  {
    if depth > MaxDepth then []
    else
      match node
      case VDict(es) =>
        var k := FirstAccepted(es, PreferredKeys, NonEmpty);
        if k.Some? then k.value else FindInEntries(es, depth + 1)
      case VList(xs) => FindInItems(xs, depth + 1)
      case _ => []
  }

  /**
   * `for v in node.values(): found = find_text(v, depth); if found: return
   * found`, where `depth` is the depth of the values.
   */
  function FindInEntries(es: seq<(string, Value)>, depth: nat): string
    requires 1 <= depth <= MaxDepth + 1
    decreases MaxDepth + 2 - depth, 0, |es|
  {
    if es == [] then []
    else
      var found := FindText(es[0].1, depth);
      if found != [] then found else FindInEntries(es[1..], depth)
  }

  /** `for item in node: found = find_text(item, depth); if found: return found`. */
  function FindInItems(xs: seq<Value>, depth: nat): string
    requires 1 <= depth <= MaxDepth + 1
    decreases MaxDepth + 2 - depth, 0, |xs|
  {
    if xs == [] then []
    else
      var found := FindText(xs[0], depth);
      if found != [] then found else FindInItems(xs[1..], depth)
  }

  /**
   * `find_text` returns the first candidate of its search order, and ""
   * exactly when there is none.
   */
  lemma {:induction false} FindTextFirst(node: Value, depth: nat)
    ensures var r := FindText(node, depth);
      (r == [] <==> Candidates(node, depth) == []) && (r != [] ==> r == Candidates(node, depth)[0])
    decreases MaxDepth + 1 - depth, 1, 0
  {
    if depth <= MaxDepth {
      match node
      case VDict(es) =>
        FirstAcceptedIsFirstCandidate(es, PreferredKeys, NonEmpty);
        FindInEntriesFirst(es, depth + 1);
      case VList(xs) => FindInItemsFirst(xs, depth + 1);
      case _ =>
    }
  }

  /** The search over a dictionary's values returns the first candidate any of them reaches. */
  lemma {:induction false} FindInEntriesFirst(es: seq<(string, Value)>, depth: nat)
    requires 1 <= depth <= MaxDepth + 1
    ensures var r := FindInEntries(es, depth);
      (r == [] <==> EntryCandidates(es, depth) == []) && (r != [] ==> r == EntryCandidates(es, depth)[0])
    decreases MaxDepth + 2 - depth, 0, |es|
  {
    if es != [] {
      FindTextFirst(es[0].1, depth);
      FindInEntriesFirst(es[1..], depth);
    }
  }

  /** The search over a list's items returns the first candidate any of them reaches. */
  lemma {:induction false} FindInItemsFirst(xs: seq<Value>, depth: nat)
    requires 1 <= depth <= MaxDepth + 1
    ensures var r := FindInItems(xs, depth);
      (r == [] <==> ItemCandidates(xs, depth) == []) && (r != [] ==> r == ItemCandidates(xs, depth)[0])
    decreases MaxDepth + 2 - depth, 0, |xs|
  {
    if xs != [] {
      FindTextFirst(xs[0], depth);
      FindInItemsFirst(xs[1..], depth);
    }
  }

  /**
   * What `find_text` finds is a reachable preferred-key string, and it finds
   * nothing exactly when no such string is reachable.
   */
  lemma {:induction false} FindTextSpec(node: Value, depth: nat)
    ensures var r := FindText(node, depth);
      (r != [] ==> Reaches(node, depth, r)) && (r == [] ==> forall s :: !Reaches(node, depth, s))
    decreases MaxDepth + 1 - depth, 1, 0
  {
    if depth <= MaxDepth {
      match node
      case VDict(es) =>
        if FirstAccepted(es, PreferredKeys, NonEmpty).None? {
          FindInEntriesSpec(es, depth + 1);
        }
      case VList(xs) => FindInItemsSpec(xs, depth + 1);
      case _ =>
    }
  }

  lemma {:induction false} FindInEntriesSpec(es: seq<(string, Value)>, depth: nat)
    requires 1 <= depth <= MaxDepth + 1
    ensures var r := FindInEntries(es, depth);
      && (r != [] ==> exists i :: 0 <= i < |es| && Reaches(es[i].1, depth, r))
      && (r == [] ==> forall i, s :: 0 <= i < |es| ==> !Reaches(es[i].1, depth, s))
    decreases MaxDepth + 2 - depth, 0, |es|
  {
    if es != [] {
      FindTextSpec(es[0].1, depth);
      if FindText(es[0].1, depth) == [] {
        FindInEntriesSpec(es[1..], depth);
        assert forall i :: 1 <= i < |es| ==> es[i] == es[1..][i - 1];
      }
    }
  }

  lemma {:induction false} FindInItemsSpec(xs: seq<Value>, depth: nat)
    requires 1 <= depth <= MaxDepth + 1
    ensures var r := FindInItems(xs, depth);
      && (r != [] ==> exists i :: 0 <= i < |xs| && Reaches(xs[i], depth, r))
      && (r == [] ==> forall i, s :: 0 <= i < |xs| ==> !Reaches(xs[i], depth, s))
    decreases MaxDepth + 2 - depth, 0, |xs|
  {
    if xs != [] {
      FindTextSpec(xs[0], depth);
      if FindText(xs[0], depth) == [] {
        FindInItemsSpec(xs[1..], depth);
        assert forall i :: 1 <= i < |xs| ==> xs[i] == xs[1..][i - 1];
      }
    }
  }

  /** `s` is a non-empty string that `_extract_delta` may return for `update`. */
  ghost predicate DeltaSource(update: Value, s: string)
  {
    s != [] &&
    ((exists j :: 0 <= j < |PreferredKeys| && Attr(update, PreferredKeys[j]) == VStr(s))
     || Reaches(ToObj(update), 0, s))
  }

  /**
   * Every non-empty string `_extract_delta` could take from `update`, in the
   * order it tries them: the preferred attributes, then the search of `to_obj(update)`.
   */
  ghost function DeltaCandidates(update: Value): seq<string>
  {
    if update.VNone? then []
    else KeyCandidates(AttrEntries(update), PreferredKeys, NonEmpty) + Candidates(ToObj(update), 0)
  }

  /**
   * `_extract_delta`: a non-empty preferred attribute, else `find_text` on
   * `to_obj(update)`; that is, the first of the candidates, or "" when there is none.
   */
  function ExtractDelta(update: Value): string
  {
    if update.VNone? then []
    else
      var a := FirstAccepted(AttrEntries(update), PreferredKeys, NonEmpty);
      if a.Some? then a.value else FindText(ToObj(update), 0)
  }

  /** `_extract_delta` returns the first of its candidates, and "" exactly when there is none. */
  lemma ExtractDeltaFirst(update: Value)
    ensures var r := ExtractDelta(update);
      (r == [] <==> DeltaCandidates(update) == []) && (r != [] ==> r == DeltaCandidates(update)[0])
  {
    if !update.VNone? {
      FirstAcceptedIsFirstCandidate(AttrEntries(update), PreferredKeys, NonEmpty);
      FindTextFirst(ToObj(update), 0);
    }
  }

  /** A preferred attribute that `_extract_delta` takes is a delta source. */
  lemma AttrDeltaIsSource(update: Value)
    requires FirstAccepted(AttrEntries(update), PreferredKeys, NonEmpty).Some?
    ensures DeltaSource(update, FirstAccepted(AttrEntries(update), PreferredKeys, NonEmpty).value)
  {
    var es := AttrEntries(update);
    var a := FirstAccepted(es, PreferredKeys, NonEmpty);
    var j :| 0 <= j < |PreferredKeys| && Lookup(es, PreferredKeys[j]) == VStr(a.value);
    assert Attr(update, PreferredKeys[j]) == VStr(a.value);
  }

  /** When no preferred attribute qualifies, only the `find_text` search can supply a delta. */
  lemma NoAttrDelta(update: Value)
    requires FirstAccepted(AttrEntries(update), PreferredKeys, NonEmpty).None?
    ensures forall s :: DeltaSource(update, s) <==> Reaches(ToObj(update), 0, s)
  {
    forall s, j | 0 <= j < |PreferredKeys| && s != []
      ensures Attr(update, PreferredKeys[j]) != VStr(s)
    {
    }
  }

  /**
   * `_extract_delta` never fails: the result is "" exactly when no preferred
   * attribute and no reachable preferred key holds a non-empty string, and is
   * otherwise one of those strings.
   */
  lemma ExtractDeltaSpec(update: Value)
    ensures var r := ExtractDelta(update);
      (r != [] ==> DeltaSource(update, r)) && (r == [] <==> forall s :: !DeltaSource(update, s))
  {
    if update.VNone? {
      assert forall s :: !DeltaSource(update, s);
    } else if FirstAccepted(AttrEntries(update), PreferredKeys, NonEmpty).Some? {
      AttrDeltaIsSource(update);
    } else {
      NoAttrDelta(update);
      FindTextSpec(ToObj(update), 0);
    }
  }

  /** `n` single-item lists wrapped around `leaf`. */
  function Nest(n: nat, leaf: Value): Value
  {
    if n == 0 then leaf else VList([Nest(n - 1, leaf)])
  }

  /** Each list level costs one unit of depth: the search inside is the search at the leaf's depth. */
  lemma {:induction false} FindThroughNesting(n: nat, leaf: Value, depth: nat)
    ensures FindText(Nest(n, leaf), depth) == FindText(leaf, depth + n)
  {
    if n > 0 {
      var inner := Nest(n - 1, leaf);
      FindThroughNesting(n - 1, leaf, depth + 1);
      if depth <= MaxDepth {
        var f := FindText(inner, depth + 1);
        assert [inner][1..] == [];
        assert FindInItems([inner], depth + 1) == if f != [] then f else FindInItems([], depth + 1);
        assert FindText(VList([inner]), depth) == FindInItems([inner], depth + 1);
      }
    }
  }

  /**
   * The depth bound: a `delta` key inside six nested lists is found, inside
   * seven it is not.
   */
  lemma DeltaDepthLimit()
    ensures ExtractDelta(Nest(6, VDict([("delta", VStr("x"))]))) == "x"
    ensures ExtractDelta(Nest(7, VDict([("delta", VStr("x"))]))) == ""
  {
    var leaf := VDict([("delta", VStr("x"))]);
    FindThroughNesting(6, leaf, 0);
    FindThroughNesting(7, leaf, 0);
    assert Nest(6, leaf) == VList([Nest(5, leaf)]);
    assert Nest(7, leaf) == VList([Nest(6, leaf)]);
    assert Lookup(leaf.entries, "delta") == VStr("x");
  }

  /** `test_usage_extraction.py`: usage read from a top-level `usage` dict. */
  lemma ExtractUsageTopLevel()
    ensures ExtractUsage(VDict([("usage", VDict([("input_tokens", VInt(1)), ("output_tokens", VInt(2)), ("total_tokens", VInt(3))]))]))
            == Some(Usage(Some(1), Some(2), Some(3)))
  {
    var u1 := VDict([("input_tokens", VInt(1)), ("output_tokens", VInt(2)), ("total_tokens", VInt(3))]);
    assert Get(u1, "output_tokens") == VInt(2);
    assert Get(u1, "total_tokens") == VInt(3);
  }

  /** `test_usage_extraction.py`: usage read from the nested `response`. */
  lemma ExtractUsageNested()
    ensures ExtractUsage(VDict([("response", VDict([("usage", VDict([("input_tokens", VInt(4)), ("output_tokens", VInt(5)), ("total_tokens", VInt(9))]))]))]))
            == Some(Usage(Some(4), Some(5), Some(9)))
  {
    var u2 := VDict([("input_tokens", VInt(4)), ("output_tokens", VInt(5)), ("total_tokens", VInt(9))]);
    assert Get(u2, "output_tokens") == VInt(5);
    assert Get(u2, "total_tokens") == VInt(9);
    assert Field(VDict([("response", VDict([("usage", u2)]))]), "usage") == VNone;
  }

  /** `test_usage_extraction.py`: no usage anywhere gives none. */
  lemma ExtractUsageAbsent()
    ensures ExtractUsage(VDict([("foo", VStr("bar"))])) == None
    ensures ExtractUsage(VNone) == None
  {
  }
}
