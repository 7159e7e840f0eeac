/**
 * The records exchanged with the back end (src/types/agentForm.ts), the attachment record
 * returned by the upload protocol, and the log of requests the form sends.
 */
module AgentTypes {
  import opened Maybe

  datatype Mode = Create | Edit

  datatype Tools = Tools(allowHangUp: bool, allowCallback: bool, liveTransfer: bool)

  /** The body of `POST /agents` and `PUT /agents/{id}`. Latency is a JavaScript number,
      kept as an exact real compared only for equality. */
  datatype AgentPayload = AgentPayload(
    name: string, description: string, callType: string, language: string, voice: string,
    prompt: string, model: string, latency: real, speed: int, callScript: string,
    serviceDescription: string, attachments: seq<string>, tools: Tools)

  /** A registered knowledge-base file, as the back end returns it. */
  datatype Attachment = Attachment(id: string, fileName: string, fileSize: nat, mimeType: string)

  /** The body of `POST /agents/{id}/test-call`. */
  datatype TestCallBody = TestCallBody(firstName: string, lastName: string, gender: string, phoneNumber: string)

  /** The answer of `POST /agents/{id}/test-call`. */
  datatype TestCallData = TestCallData(success: bool, callId: string)

  /** A request to the agent endpoints. */
  datatype Request =
    | PostAgent(payload: AgentPayload)
    | PutAgent(id: string, payload: AgentPayload)
    | PostTestCall(id: string, body: TestCallBody)

  /** A request as it left, with the `saving` and `calling` flags at that moment. */
  datatype Sent = Sent(request: Request, saving: bool, calling: bool)

  /** JavaScript truthiness of `agentId: string | null`: present and not the empty string. */
  predicate HasId(id: Option<string>)
  {
    id.Some? && id.value != ""
  }

  /** The ids of the attachments, in list order (`attachments.map(f => f.id)`). */
  function Ids(atts: seq<Attachment>): seq<string>
  {
    seq(|atts|, i requires 0 <= i < |atts| => atts[i].id)
  }

  /** Appending attachments appends their ids: the ids of a grown list are the old ids
      followed by the new ones. */
  lemma IdsConcat(a: seq<Attachment>, b: seq<Attachment>)
    ensures Ids(a + b) == Ids(a) + Ids(b)
  {
  }

  /** An id is in the list exactly when some attachment carries it. */
  lemma IdsMembers(atts: seq<Attachment>, id: string)
    ensures id in Ids(atts) <==> exists a :: a in atts && a.id == id
  {
    if id in Ids(atts) {
      var k :| 0 <= k < |atts| && Ids(atts)[k] == id;
      assert atts[k] in atts;
    }
    if exists a :: a in atts && a.id == id {
      var a :| a in atts && a.id == id;
      var k :| 0 <= k < |atts| && atts[k] == a;
      assert Ids(atts)[k] == id;
    }
  }

  lemma MultisetCancel<T>(x: T, m1: multiset<T>, m2: multiset<T>)
    requires multiset{x} + m1 == multiset{x} + m2
    ensures m1 == m2
  {
    assert forall y :: m1[y] == (multiset{x} + m1)[y] - multiset{x}[y];
  }

  /** A position holding `x`, when `x` occurs. */
  lemma IndexOf<T>(b: seq<T>, x: T) returns (j: int)
    requires x in multiset(b)
    ensures 0 <= j < |b| && b[j] == x
  {
    j :| 0 <= j < |b| && b[j] == x;
  }

  /** Taking out position `j` takes one occurrence of `b[j]` out of the multiset. */
  lemma SplitAt<T>(b: seq<T>, j: int)
    requires 0 <= j < |b|
    ensures multiset(b) == multiset{b[j]} + multiset(b[..j] + b[j + 1..])
  {
    assert b == b[..j] + [b[j]] + b[j + 1..];
  }

  /** Taking out the attachment at `j` takes its id out of the ids. */
  lemma IdsSplitAt(b: seq<Attachment>, j: int)
    requires 0 <= j < |b|
    ensures multiset(Ids(b)) == multiset{b[j].id} + multiset(Ids(b[..j] + b[j + 1..]))
  {
    SplitAt(Ids(b), j);
    assert Ids(b)[..j] + Ids(b)[j + 1..] == Ids(b[..j] + b[j + 1..]);
  }

  /** With the first of `a` found at `j` in `b`, the rests are permutations of each other. */
  lemma RestPermutation(a: seq<Attachment>, b: seq<Attachment>, j: int)
    requires multiset(a) == multiset(b) && a != [] && 0 <= j < |b| && b[j] == a[0]
    ensures multiset(a[1..]) == multiset(b[..j] + b[j + 1..])
  {
    SplitAt(a, 0);
    SplitAt(b, j);
    assert a[..0] + a[1..] == a[1..];
    MultisetCancel(a[0], multiset(a[1..]), multiset(b[..j] + b[j + 1..]));
  }

  /** Putting the first of `a` back at `j` puts its id back. */
  lemma IdsRestore(a: seq<Attachment>, b: seq<Attachment>, j: int)
    requires a != [] && 0 <= j < |b| && b[j] == a[0]
    requires multiset(Ids(a[1..])) == multiset(Ids(b[..j] + b[j + 1..]))
    ensures multiset(Ids(a)) == multiset(Ids(b))
  {
    IdsDropFirst(a);
    IdsSplitAt(b, j);
  }

  /** Taking out the first attachment takes its id out of the ids. */
  lemma IdsDropFirst(a: seq<Attachment>)
    requires a != []
    ensures multiset(Ids(a)) == multiset{a[0].id} + multiset(Ids(a[1..]))
  {
    IdsSplitAt(a, 0);
    assert a[..0] + a[1..] == a[1..];
  }

  /** Reordering the attachments reorders their ids the same way. */
  lemma {:induction false} IdsPermutation(a: seq<Attachment>, b: seq<Attachment>)
    requires multiset(a) == multiset(b)
    ensures multiset(Ids(a)) == multiset(Ids(b))
    decreases |a|
  {
    if a == [] {
      assert |b| == 0;
    } else {
      var j := IndexOf(b, a[0]);
      RestPermutation(a, b, j);
      IdsPermutation(a[1..], b[..j] + b[j + 1..]);
      IdsRestore(a, b, j);
    }
  }
}
