/**
 * The pure part of src/components/agents/agent-form.tsx: the form's values and how they are
 * seeded, the inline required-field check, the badge count, the normalised snapshot behind
 * the unsaved-changes warning, and the save payload.
 */
module FormState {
  import opened Maybe
  import opened JsText
  import opened AgentTypes
  import opened Validation

  /** Everything the user edits on the agent, as the component's state hooks hold it. */
  datatype FormValues = FormValues(
    agentName: string, description: string, callType: string, language: string,
    voice: string, prompt: string, model: string, latency: real, speed: int,
    callScript: string, serviceDescription: string,
    allowHangUp: bool, allowCallback: bool, liveTransfer: bool)

  /** `AgentFormInitialData`: every entry optional. */
  datatype InitialData = InitialData(
    agentName: Option<string>, description: Option<string>, callType: Option<string>,
    language: Option<string>, voice: Option<string>, prompt: Option<string>,
    model: Option<string>, latency: Option<real>, speed: Option<int>,
    callScript: Option<string>, serviceDescription: Option<string>)

  const DefaultLatency: real := 0.5
  const DefaultSpeed: int := 110

  /** The first values of the state hooks: what `initialData` supplies, otherwise the empty
      string, latency 0.5, speed 110; the three tool switches always start off. */
  function Seed(init: InitialData): FormValues
  {
    FormValues(
      OrElse(init.agentName, ""), OrElse(init.description, ""), OrElse(init.callType, ""),
      OrElse(init.language, ""), OrElse(init.voice, ""), OrElse(init.prompt, ""),
      OrElse(init.model, ""), OrElse(init.latency, DefaultLatency), OrElse(init.speed, DefaultSpeed),
      OrElse(init.callScript, ""), OrElse(init.serviceDescription, ""),
      false, false, false)
  }

  // ---------------------------------------------------------------- required fields

  /** The six required values, in the shape the validation rules read them. */
  function RequiredOf(v: FormValues): Required
  {
    Required(v.agentName, v.model, v.callType, v.language, v.voice, v.prompt)
  }

  /** The condition of the `if` that `getValidationErrors` writes for field `f`: `!agentName.trim()`
      for the name, `!value` for the other five. */
  predicate Missing(v: FormValues, f: Field)
  {
    match f
    case AgentName => Trim(v.agentName) == ""
    case CallType => v.callType == ""
    case Language => v.language == ""
    case Voice => v.voice == ""
    case Prompt => v.prompt == ""
    case Model => v.model == ""
  }

  /** `getValidationErrors`: each field whose `if` fires, with its `REQUIRED_FIELDS` message. */
  function GetValidationErrors(v: FormValues): map<Field, string>
  {
    AllFieldsComplete();
    map f | f in AllFields && Missing(v, f) :: Message(f)
  }

  /** A field is a key exactly when it is missing, the name when it is white space only and
      the other five when they are empty; each key holds its field's message, and the map is
      empty exactly when no field is missing. */
  lemma GetValidationErrorsSpec(v: FormValues)
    ensures var errs := GetValidationErrors(v);
            && (AgentName in errs <==> AllSpace(v.agentName))
            && (CallType in errs <==> v.callType == "")
            && (Language in errs <==> v.language == "")
            && (Voice in errs <==> v.voice == "")
            && (Prompt in errs <==> v.prompt == "")
            && (Model in errs <==> v.model == "")
            && (forall f :: f in errs <==> Missing(v, f))
            && (forall f :: f in errs ==> errs[f] == Message(f))
            && (errs == map[] <==> forall f :: !Missing(v, f))
  {
    var errs := GetValidationErrors(v);
    AllFieldsComplete();
    TrimEmpty(v.agentName);
    if errs != map[] {
      var f :| f in errs;
    }
  }

  /** The inline check of the component and the rule table of the validation hook agree on
      every input: the same keys with the same messages. */
  lemma InlineMatchesHook(v: FormValues)
    ensures GetValidationErrors(v) == ErrorsFor(RequiredOf(v))
  {
    var e := GetValidationErrors(v);
    GetValidationErrorsSpec(v);
    forall f ensures f in e <==> Fails(RequiredOf(v), f) {
      RuleMeaning(f, Value(RequiredOf(v), f));
    }
    ErrorsForUnique(RequiredOf(v), e);
  }

  /** `[...].filter(v => !v).length` */
  function CountEmpty(xs: seq<string>): (n: nat)
    ensures n <= |xs|
  {
    if xs == [] then 0 else (if xs[0] == "" then 1 else 0) + CountEmpty(xs[1..])
  }

  /** `basicSettingsMissing`: how many of the six required values are the empty string. */
  function BasicSettingsMissing(v: FormValues): nat
  {
    CountEmpty([v.agentName, v.callType, v.language, v.voice, v.prompt, v.model])
  }

  function EmptyMark(s: string): nat
  {
    if s == "" then 1 else 0
  }

  /** The filter over the six values counts each empty one once. */
  lemma BadgeIsSum(v: FormValues)
    ensures BasicSettingsMissing(v)
            == EmptyMark(v.agentName) + EmptyMark(v.callType) + EmptyMark(v.language)
               + EmptyMark(v.voice) + EmptyMark(v.prompt) + EmptyMark(v.model)
  {
    var x6 := [v.agentName, v.callType, v.language, v.voice, v.prompt, v.model];
    var x5, x4, x3 := x6[1..], x6[2..], x6[3..];
    var x2, x1 := x6[4..], x6[5..];
    assert x5[1..] == x4 && x4[1..] == x3 && x3[1..] == x2 && x2[1..] == x1 && x1[1..] == [];
    assert CountEmpty(x1) == EmptyMark(v.model);
    assert CountEmpty(x2) == EmptyMark(v.prompt) + CountEmpty(x1);
    assert CountEmpty(x3) == EmptyMark(v.voice) + CountEmpty(x2);
    assert CountEmpty(x4) == EmptyMark(v.language) + CountEmpty(x3);
    assert CountEmpty(x5) == EmptyMark(v.callType) + CountEmpty(x4);
    assert CountEmpty(x6) == EmptyMark(v.agentName) + CountEmpty(x5);
  }

  /** The badge lies between 0 and 6; it is 0 exactly when none of the six is empty and 6
      exactly when all are. An empty error map implies a zero badge. */
  lemma BadgeBounds(v: FormValues)
    ensures 0 <= BasicSettingsMissing(v) <= 6
    ensures BasicSettingsMissing(v) == 0 <==>
              v.agentName != "" && v.callType != "" && v.language != ""
              && v.voice != "" && v.prompt != "" && v.model != ""
    ensures BasicSettingsMissing(v) == 6 <==>
              v.agentName == "" && v.callType == "" && v.language == ""
              && v.voice == "" && v.prompt == "" && v.model == ""
    ensures GetValidationErrors(v) == map[] ==> BasicSettingsMissing(v) == 0
  {
    BadgeIsSum(v);
    GetValidationErrorsSpec(v);
    if GetValidationErrors(v) == map[] {
      assert AgentName !in GetValidationErrors(v);
    }
  }

  /** The badge counts only empty strings, while the save check trims the name: a name of
      spaces alone, with the five others filled, shows no badge yet still fails validation. */
  lemma BadgeOverlooksBlankName(v: FormValues)
    requires v.agentName != "" && AllSpace(v.agentName)
    requires v.callType != "" && v.language != "" && v.voice != "" && v.prompt != "" && v.model != ""
    ensures BasicSettingsMissing(v) == 0
    ensures GetValidationErrors(v) == map[AgentName := Message(AgentName)]
  {
    BadgeBounds(v);
    GetValidationErrorsSpec(v);
    var e := GetValidationErrors(v);
    assert e.Keys == {AgentName};
  }

  /** The form mounted without `initialData`. */
  const NoInitialData := InitialData(None, None, None, None, None, None, None, None, None, None, None)

  /** Mounted without `initialData`, every required field is missing, each with its message,
      and the badge counts all six; latency, speed and the switches take their defaults. */
  lemma SeedWithoutData()
    ensures var v := Seed(NoInitialData);
            && (forall f :: Missing(v, f))
            && GetValidationErrors(v) == (map f | f in AllFields :: Message(f))
            && BasicSettingsMissing(v) == 6
            && v.latency == DefaultLatency && v.speed == DefaultSpeed
            && !v.allowHangUp && !v.allowCallback && !v.liveTransfer
  {
    var v := Seed(NoInitialData);
    GetValidationErrorsSpec(v);
    BadgeBounds(v);
    AllFieldsComplete();
  }

  /** Mounted with the six required values supplied, a non-blank name among them, the form
      has no errors and no badge, and carries those values unchanged. */
  lemma SeedFromCompleteData(init: InitialData)
    requires init.agentName.Some? && !AllSpace(init.agentName.value)
    requires init.callType.Some? && init.callType.value != ""
    requires init.language.Some? && init.language.value != ""
    requires init.voice.Some? && init.voice.value != ""
    requires init.prompt.Some? && init.prompt.value != ""
    requires init.model.Some? && init.model.value != ""
    ensures GetValidationErrors(Seed(init)) == map[] && BasicSettingsMissing(Seed(init)) == 0
    ensures RequiredOf(Seed(init))
            == Required(init.agentName.value, init.model.value, init.callType.value,
                        init.language.value, init.voice.value, init.prompt.value)
  {
    var v := Seed(init);
    GetValidationErrorsSpec(v);
    BadgeBounds(v);
  }

  // ---------------------------------------------------------------- snapshot and dirty state

  /** `FormSnapshot`: the values the unsaved-changes check compares. */
  datatype Snapshot = Snapshot(
    agentName: string, description: string, callType: string, language: string,
    voice: string, prompt: string, model: string, latency: real, speed: int,
    callScript: string, serviceDescription: string,
    allowHangUp: bool, allowCallback: bool, liveTransfer: bool,
    attachmentIds: string)

  /** `attachments.map(f => f.id).sort().join(",")` */
  function AttachmentKey(atts: seq<Attachment>): string
  {
    Join(Sort(Ids(atts)))
  }

  /** `getSnapshot`: four free-text fields trimmed, the attachment ids as one sorted,
      comma-joined key, every other value copied. */
  function GetSnapshot(v: FormValues, atts: seq<Attachment>): Snapshot
  {
    Snapshot(Trim(v.agentName), Trim(v.description), v.callType, v.language, v.voice,
             v.prompt, v.model, v.latency, v.speed, Trim(v.callScript),
             Trim(v.serviceDescription), v.allowHangUp, v.allowCallback, v.liveTransfer,
             AttachmentKey(atts))
  }

  /** `isDirty`: false with no baseline; otherwise true when any of the fifteen fields
      differs from the baseline. */
  predicate IsDirty(baseline: Option<Snapshot>, current: Snapshot)
  {
    match baseline
    case None => false
    case Some(initial) =>
      initial.agentName != current.agentName
      || initial.description != current.description
      || initial.callType != current.callType
      || initial.language != current.language
      || initial.voice != current.voice
      || initial.prompt != current.prompt
      || initial.model != current.model
      || initial.latency != current.latency
      || initial.speed != current.speed
      || initial.callScript != current.callScript
      || initial.serviceDescription != current.serviceDescription
      || initial.allowHangUp != current.allowHangUp
      || initial.allowCallback != current.allowCallback
      || initial.liveTransfer != current.liveTransfer
      || initial.attachmentIds != current.attachmentIds
  }

  /** The field-by-field comparison is exactly snapshot inequality; with no baseline the form
      is never dirty. */
  lemma DirtyIffDiffers(baseline: Option<Snapshot>, current: Snapshot)
    ensures baseline == None ==> !IsDirty(baseline, current)
    ensures baseline.Some? ==> (IsDirty(baseline, current) <==> baseline.value != current)
  {
  }

  /** The baseline effect: store the snapshot only while no baseline exists. */
  function Capture(baseline: Option<Snapshot>, current: Snapshot): (b: Option<Snapshot>)
    ensures b.Some?
    ensures baseline.Some? ==> b == baseline
  {
    if baseline == None then Some(current) else baseline
  }

  /** Captures after the first have no effect, and right after the first one the form is
      clean. */
  lemma CaptureOnce(baseline: Option<Snapshot>, s1: Snapshot, s2: Snapshot)
    ensures Capture(Capture(baseline, s1), s2) == Capture(baseline, s1)
    ensures !IsDirty(Capture(None, s1), s1)
    ensures baseline == None ==> (IsDirty(Capture(baseline, s1), s2) <==> s1 != s2)
  {
    DirtyIffDiffers(Capture(None, s1), s1);
    DirtyIffDiffers(Capture(baseline, s1), s2);
  }

  /** The order of the attachment list never shows in the snapshot, so reordering files does
      not make the form dirty. */
  lemma SnapshotPermutationInvariant(v: FormValues, a: seq<Attachment>, b: seq<Attachment>)
    requires multiset(a) == multiset(b)
    ensures GetSnapshot(v, a) == GetSnapshot(v, b)
  {
    IdsPermutation(a, b);
    SortPermutationInvariant(Ids(a), Ids(b));
  }

  /** White space appended to the name leaves the snapshot, hence the dirty state, as it was;
      the payload still carries the padded name. */
  lemma TrailingSpaceNotDirty(v: FormValues, atts: seq<Attachment>, w: string, baseline: Option<Snapshot>)
    requires AllSpace(w)
    ensures GetSnapshot(v.(agentName := v.agentName + w), atts) == GetSnapshot(v, atts)
    ensures IsDirty(baseline, GetSnapshot(v.(agentName := v.agentName + w), atts)) == IsDirty(baseline, GetSnapshot(v, atts))
    ensures w != "" ==> Payload(v.(agentName := v.agentName + w), atts) != Payload(v, atts)
  {
    TrimAppendSpace(v.agentName, w);
    if w != "" {
      assert |Payload(v.(agentName := v.agentName + w), atts).name| > |v.agentName|;
    }
  }

  lemma SortSeparable(xs: seq<string>)
    requires Separable(xs)
    ensures Separable(Sort(xs))
  {
    var s := Sort(xs);
    SortPermutes(xs);
    forall i | 0 <= i < |s| ensures s[i] != "" && ',' !in s[i] {
      assert s[i] in multiset(xs);
      var k :| 0 <= k < |xs| && xs[k] == s[i];
    }
  }

  /** When every id is non-empty and free of commas, two attachment lists have the same key
      exactly when they hold the same ids, counted with multiplicity. */
  lemma AttachmentKeyFaithful(a: seq<Attachment>, b: seq<Attachment>)
    requires Separable(Ids(a)) && Separable(Ids(b))
    ensures AttachmentKey(a) == AttachmentKey(b) <==> multiset(Ids(a)) == multiset(Ids(b))
  {
    if AttachmentKey(a) == AttachmentKey(b) {
      SortSeparable(Ids(a));
      SortSeparable(Ids(b));
      JoinInjective(Sort(Ids(a)), Sort(Ids(b)));
      SortPermutes(Ids(a));
      SortPermutes(Ids(b));
    }
    if multiset(Ids(a)) == multiset(Ids(b)) {
      SortPermutationInvariant(Ids(a), Ids(b));
    }
  }

  /** Without that condition the key conflates lists: one id "a,b" looks like the two ids "a"
      and "b", and one empty id looks like no attachment at all. */
  lemma AttachmentKeyCollisions(x: Attachment, y: Attachment, z: Attachment, e: Attachment)
    requires x.id == "a,b" && y.id == "a" && z.id == "b" && e.id == ""
    ensures AttachmentKey([x]) == AttachmentKey([y, z])
    ensures AttachmentKey([e]) == AttachmentKey([])
  {
    KeySingle(x);
    KeySingle(e);
    KeyPair(y, z);
  }

  /** One attachment's key is its id. */
  lemma KeySingle(x: Attachment)
    ensures AttachmentKey([x]) == x.id
  {
    assert Ids([x]) == [x.id];
    assert Sort([x.id]) == [x.id] by { assert [x.id][1..] == []; }
  }

  lemma KeyPair(y: Attachment, z: Attachment)
    requires y.id == "a" && z.id == "b"
    ensures AttachmentKey([y, z]) == "a,b"
  {
    assert Ids([y, z]) == ["a", "b"];
    SortTwo();
    JoinTwo();
  }

  lemma JoinTwo()
    ensures Join(["a", "b"]) == "a,b"
  {
    assert ["a", "b"][1..] == ["b"];
    assert "a" + "," + "b" == "a,b";
  }

  lemma SortTwo()
    ensures Sort(["a", "b"]) == ["a", "b"]
  {
    assert ["a", "b"][1..] == ["b"];
    assert Sort(["b"]) == ["b"] by {
      assert ["b"][1..] == [];
    }
    assert Le("a", "b");
  }

  // ---------------------------------------------------------------- save payload

  /** The body `handleSave` sends: the values as typed (the name untrimmed), the attachment
      ids in list order, and the tool switches grouped. */
  function Payload(v: FormValues, atts: seq<Attachment>): AgentPayload
  {
    AgentPayload(v.agentName, v.description, v.callType, v.language, v.voice, v.prompt,
                 v.model, v.latency, v.speed, v.callScript, v.serviceDescription, Ids(atts),
                 Tools(v.allowHangUp, v.allowCallback, v.liveTransfer))
  }

  /** The payload and the snapshot describe the same form: the snapshot's text fields are the
      payload's trimmed, its other fields the payload's own, its key the payload's ids sorted
      and joined. So equal payloads give equal snapshots, while the converse fails. */
  lemma PayloadAgreesWithSnapshot(v: FormValues, atts: seq<Attachment>, v': FormValues, atts': seq<Attachment>)
    ensures var p, s := Payload(v, atts), GetSnapshot(v, atts);
            && s.agentName == Trim(p.name) && s.description == Trim(p.description)
            && s.callScript == Trim(p.callScript) && s.serviceDescription == Trim(p.serviceDescription)
            && s.callType == p.callType && s.language == p.language && s.voice == p.voice
            && s.prompt == p.prompt && s.model == p.model && s.latency == p.latency && s.speed == p.speed
            && s.allowHangUp == p.tools.allowHangUp && s.allowCallback == p.tools.allowCallback
            && s.liveTransfer == p.tools.liveTransfer
            && s.attachmentIds == Join(Sort(p.attachments))
    ensures Payload(v, atts) == Payload(v', atts') ==> GetSnapshot(v, atts) == GetSnapshot(v', atts')
  {
    if Payload(v, atts) == Payload(v', atts') {
      assert Ids(atts) == Payload(v, atts).attachments == Ids(atts');
    }
  }
}
