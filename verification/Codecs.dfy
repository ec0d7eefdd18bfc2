/** Text forms of node keys, references and activity keys. */
module Codecs {
  import opened Prelude
  import opened Bindings
  import opened Ir
  import opened Decimal

  const MAX_NAME_LEN := 64
  const MAX_U32 := 0xFFFF_FFFF

  predicate IsKeyChar(c: char) {
    'a' <= c <= 'z' || '0' <= c <= '9' || c == '_'
  }

  predicate ValidNodeKey(raw: string) {
    && 0 < |raw| <= MAX_NAME_LEN
    && 'a' <= raw[0] <= 'z'
    && forall i :: 0 <= i < |raw| ==> IsKeyChar(raw[i])
  }

  predicate ValidAsciiName(raw: string) {
    && 0 < |raw| <= MAX_NAME_LEN
    && forall i :: 0 <= i < |raw| ==>
         'a' <= raw[i] <= 'z' || 'A' <= raw[i] <= 'Z' || '0' <= raw[i] <= '9' || raw[i] in "_.-"
  }

  // ----- references -----

  function StripPrefix(s: string, prefix: string): Option<string> {
    if prefix <= s then Some(s[|prefix|..]) else None
  }

  function StripSuffix(s: string, suffix: string): Option<string> {
    if |suffix| <= |s| && s[|s| - |suffix|..] == suffix then Some(s[..|s| - |suffix|]) else None
  }

  function ParseReference(raw: string): Option<Reference> {
    if raw == "workflow.input" then Some(WorkflowInput)
    else if raw == "scope.input" then Some(ScopeInput)
    else if raw == "scope.id" then Some(ScopeId)
    else if raw == "loop.state" then Some(LoopState)
    else if raw == "loop.index" then Some(LoopIndex)
    else if raw == "item.value" then Some(ItemValue)
    else if raw == "item.index" then Some(ItemIndex)
    else if raw == "forward.input" then Some(ForwardInput)
    else if raw == "forward.output" then Some(ForwardOutput)
    else
      match StripPrefix(raw, "nodes.")
      case None => None
      case Some(node) =>
        match StripSuffix(node, ".output")
        case None => None
        case Some(key) => if ValidNodeKey(key) then Some(NodeOutput(key)) else None
  }

  function StableReference(r: Reference): string {
    match r
    case WorkflowInput => "workflow.input"
    case ScopeInput => "scope.input"
    case ScopeId => "scope.id"
    case NodeOutput(node) => "nodes." + node + ".output"
    case LoopState => "loop.state"
    case LoopIndex => "loop.index"
    case ItemValue => "item.value"
    case ItemIndex => "item.index"
    case ForwardInput => "forward.input"
    case ForwardOutput => "forward.output"
  }

  /** The texts of the format and what each of them names. */
  lemma ReferenceTable(key: Key)
    ensures ParseReference("workflow.input") == Some(WorkflowInput)
    ensures ParseReference("scope.input") == Some(ScopeInput) && ParseReference("scope.id") == Some(ScopeId)
    ensures ParseReference("loop.state") == Some(LoopState) && ParseReference("loop.index") == Some(LoopIndex)
    ensures ParseReference("item.value") == Some(ItemValue) && ParseReference("item.index") == Some(ItemIndex)
    ensures ParseReference("forward.input") == Some(ForwardInput) && ParseReference("forward.output") == Some(ForwardOutput)
    ensures ParseReference("nodes." + key + ".output") == if ValidNodeKey(key) then Some(NodeOutput(key)) else None
  {
    NodeRoundTrip(key);
  }

  lemma StableNodeParts(key: Key)
    ensures StripPrefix(StableReference(NodeOutput(key)), "nodes.") == Some(key + ".output")
    ensures StripSuffix(key + ".output", ".output") == Some(key)
  {
    assert ("nodes." + key + ".output")[6..] == key + ".output";
    assert (key + ".output")[|key|..] == ".output";
    assert (key + ".output")[..|key|] == key;
  }

  lemma NodeRoundTrip(key: Key)
    ensures ParseReference(StableReference(NodeOutput(key))) == if ValidNodeKey(key) then Some(NodeOutput(key)) else None
  {
    StableNodeParts(key);
    assert StableReference(NodeOutput(key))[0] == 'n';
  }

  lemma FixedRoundTrip(r: Reference)
    requires !r.NodeOutput?
    ensures ParseReference(StableReference(r)) == Some(r)
  {
  }

  /** Printing and parsing returns the reference, exactly when its node key is a valid one. */
  lemma ReferenceRoundTrip(r: Reference)
    ensures ParseReference(StableReference(r)) == Some(r) <==> (r.NodeOutput? ==> ValidNodeKey(r.node))
    ensures r.NodeOutput? && !ValidNodeKey(r.node) ==> ParseReference(StableReference(r)) == None
  {
    if r.NodeOutput? {
      NodeRoundTrip(r.node);
    } else {
      FixedRoundTrip(r);
    }
  }

  lemma Rejoined<T>(a: seq<T>, b: seq<T>, c: seq<T>)
    ensures a + b + c == a + (b + c)
  {
  }

  lemma NodeTextSplit(raw: string)
    requires ParseReference(raw).Some? && ParseReference(raw).value.NodeOutput?
    ensures raw == "nodes." + ParseReference(raw).value.node + ".output"
  {
    var rest := StripPrefix(raw, "nodes.").value;
    var key := StripSuffix(rest, ".output").value;
    assert raw == "nodes." + rest;
    assert rest == key + ".output";
    Rejoined("nodes.", key, ".output");
  }

  /** Every accepted text is the stable text of the reference it denotes. */
  lemma ReferenceTextUnique(raw: string)
    requires ParseReference(raw).Some?
    ensures StableReference(ParseReference(raw).value) == raw
  {
    var r := ParseReference(raw).value;
    if r.NodeOutput? {
      NodeTextSplit(raw);
    }
  }

  // ----- activity keys -----

  function StableName(k: ActivityKey): string {
    k.name + "/v" + Print(k.version)
  }

  predicate MarkerAt(s: string, j: nat) {
    j + 2 <= |s| && s[j] == '/' && s[j + 1] == 'v'
  }

  /** Where the last "/v" of `s` starts, if there is one. */
  function LastMarker(s: string): (i: Option<nat>)
    ensures i.Some? ==> MarkerAt(s, i.value) && forall j :: i.value < j ==> !MarkerAt(s, j)
    ensures i.None? ==> forall j :: !MarkerAt(s, j)
    decreases |s|
  {
    if |s| < 2 then
      None
    else if MarkerAt(s, |s| - 2) then
      Some(|s| - 2)
    else
      var front := s[..|s| - 1];
      assert forall j :: MarkerAt(front, j) <==> j != |s| - 2 && MarkerAt(s, j);
      LastMarker(front)
  }

  /** An optional plus sign and at least one digit, within 32 bits. */
  function ParseU32(s: string): Option<nat> {
    var digits := if |s| > 0 && s[0] == '+' then s[1..] else s;
    if digits == [] || !AllDigits(digits) || Value(digits) > MAX_U32 then None else Some(Value(digits))
  }

  function ParseActivityKey(raw: string): Option<ActivityKey> {
    match LastMarker(raw)
    case None => None
    case Some(i) =>
      match ParseU32(raw[i + 2..])
      case None => None
      case Some(version) => Some(ActivityKey(raw[..i], version))
  }

  lemma {:induction false} MarkerBefore(name: string, tail: string)
    requires '/' !in tail
    ensures LastMarker(name + "/v" + tail) == Some(|name|)
    decreases |tail|
  {
    var s := name + "/v" + tail;
    if tail == [] {
      assert MarkerAt(s, |s| - 2);
    } else {
      var front := tail[..|tail| - 1];
      assert s[..|s| - 1] == name + "/v" + front;
      assert !MarkerAt(s, |s| - 2) by {
        assert |tail| >= 2 ==> s[|s| - 2] == tail[|tail| - 2];
        assert |tail| == 1 ==> s[|s| - 2] == 'v';
      }
      MarkerBefore(name, front);
    }
  }

  lemma MarkerBeforeDigits(name: string, digits: string)
    requires AllDigits(digits)
    ensures LastMarker(name + "/v" + digits) == Some(|name|)
  {
    MarkerBefore(name, digits);
  }

  /** Parsing inverts printing for every name, even one that contains "/v", and every u32 version. */
  lemma ActivityKeyRoundTrip(k: ActivityKey)
    requires k.version <= MAX_U32
    ensures ParseActivityKey(StableName(k)) == Some(k)
  {
    PrintValue(k.version);
    var digits := Print(k.version);
    MarkerBeforeDigits(k.name, digits);
    assert StableName(k)[|k.name| + 2..] == digits;
    assert StableName(k)[..|k.name|] == k.name;
  }

  /** The version part of an accepted text. */
  function VersionText(raw: string): string
    requires ParseActivityKey(raw).Some?
  {
    raw[LastMarker(raw).value + 2..]
  }

  lemma ActivityTextSplit(raw: string)
    requires ParseActivityKey(raw).Some?
    ensures raw == ParseActivityKey(raw).value.name + "/v" + VersionText(raw)
  {
    var i, text := LastMarker(raw).value, VersionText(raw);
    assert raw[i..i + 2] == "/v" && raw[i..] == raw[i..i + 2] + text;
  }

  /** The text of a version: digits, perhaps after one plus sign, that make a number of 32 bits. */
  ghost predicate Denotes(text: string, version: nat) {
    exists digits :: (text == digits || text == "+" + digits) && digits != [] && AllDigits(digits) && Value(digits) == version <= 0xFFFF_FFFF
  }

  lemma VersionIff(text: string, version: nat)
    ensures ParseU32(text) == Some(version) <==> Denotes(text, version)
  {
    if ParseU32(text) == Some(version) {
      var digits := if |text| > 0 && text[0] == '+' then text[1..] else text;
      assert text == digits || text == "+" + digits;
    }
    if Denotes(text, version) {
      var digits :| (text == digits || text == "+" + digits) && digits != [] && AllDigits(digits) && Value(digits) == version <= 0xFFFF_FFFF;
      assert text == "+" + digits ==> text[1..] == digits;
    }
  }

  lemma DenotesPlain(text: string, version: nat)
    requires Denotes(text, version)
    ensures '/' !in text
  {
  }

  /** A text is read as a key exactly if it is the name, "/v" and a text of the version. */
  lemma ActivityTextIff(raw: string, k: ActivityKey)
    ensures ParseActivityKey(raw) == Some(k) <==>
            exists text :: raw == k.name + "/v" + text && Denotes(text, k.version)
  {
    if ParseActivityKey(raw) == Some(k) {
      ActivityTextSplit(raw);
      VersionIff(VersionText(raw), k.version);
    }
    forall text | raw == k.name + "/v" + text && Denotes(text, k.version)
      ensures ParseActivityKey(raw) == Some(k)
    {
      DenotesPlain(text, k.version);
      MarkerBefore(k.name, text);
      VersionIff(text, k.version);
      assert raw[|k.name| + 2..] == text && raw[..|k.name|] == k.name;
    }
  }

  /** Printing inverts parsing exactly when the version text has no plus sign and no leading zero. */
  lemma ActivityTextRoundTrip(raw: string)
    requires ParseActivityKey(raw).Some?
    ensures StableName(ParseActivityKey(raw).value) == raw <==> Canonical(VersionText(raw))
  {
    var k, text := ParseActivityKey(raw).value, VersionText(raw);
    ActivityTextSplit(raw);
    if Canonical(text) {
      ValuePrint(text);
    }
    if StableName(k) == raw {
      PrintValue(k.version);
      assert Print(k.version) == StableName(k)[|k.name| + 2..] == raw[|k.name| + 2..] == text;
    }
  }

  /** Two texts of one key: accepted texts are not unique. */
  lemma LeadingZeroAccepted(name: string)
    ensures ParseActivityKey(name + "/v01") == Some(ActivityKey(name, 1))
    ensures StableName(ActivityKey(name, 1)) == name + "/v1"
  {
    var s := name + "/v01";
    assert s == name + "/v" + "01";
    MarkerBeforeDigits(name, "01");
    assert s[|name| + 2..] == "01" && s[..|name|] == name;
    assert "01"[..1] == "0" && "0"[..0] == [];
    assert Value("0") == 0 && Value("01") == 1;
  }
}
