/**
 * The attachment-list logic that src/components/agents/agent-form.tsx and
 * src/components/agents/agent-form/handlers.ts share: the extension filter, what a batch of
 * uploads appends, and removal by index.
 */
module Files {
  import opened JsText
  import opened AgentTypes
  import opened Upload

  /** `ACCEPTED_TYPES` */
  const AcceptedTypes: seq<string> := [".pdf", ".doc", ".docx", ".txt", ".csv", ".xlsx", ".xls"]

  /** `"." + name.split(".").pop()?.toLowerCase()`: a dot and the lower-cased text after the
      last dot; a name without a dot contributes all of itself. */
  function Extension(name: string): string
  {
    "." + ToLower(LastSegment(name, '.'))
  }

  predicate Accepts(accepted: seq<string>, name: string)
  {
    Extension(name) in accepted
  }

  /** `name` = `stem + "." + tail` with no dot in `tail` has extension `"." + tail` lower-cased. */
  lemma ExtensionAfterLastDot(stem: string, tail: string)
    requires '.' !in tail
    ensures Extension(stem + "." + tail) == "." + ToLower(tail)
  {
    LastSegmentOfTail(stem, '.', tail);
  }

  /** A name without a dot is its own extension: a file called just "pdf" passes the filter. */
  lemma ExtensionWithoutDot(name: string)
    requires '.' !in name
    ensures Extension(name) == "." + ToLower(name)
  {
    LastSegmentNoSeparator(name, '.');
  }

  /** What one file adds to the list: its attachment when it passes the filter and its upload
      resolved, nothing otherwise. */
  function KeptOne(file: File, outcome: Outcome, accepted: seq<string>): seq<Attachment>
  {
    if Accepts(accepted, file.name) && outcome.Uploaded? then [outcome.attachment] else []
  }

  /** The filter's verdict on each file of the batch, in order. */
  function AcceptedFlags(files: seq<File>, accepted: seq<string>): (ok: seq<bool>)
    ensures |ok| == |files|
  {
    if files == [] then []
    else
      var n := |files| - 1;
      AcceptedFlags(files[..n], accepted) + [Accepts(accepted, files[n].name)]
  }

  lemma {:induction false} AcceptedFlagsSpec(files: seq<File>, accepted: seq<string>)
    ensures forall i :: 0 <= i < |files| ==> AcceptedFlags(files, accepted)[i] == Accepts(accepted, files[i].name)
  {
    if files != [] {
      var n := |files| - 1;
      AcceptedFlagsSpec(files[..n], accepted);
      assert forall i :: 0 <= i < n ==> files[..n][i] == files[i];
    }
  }

  /** Position `i` of a batch lets its attachment through: the flag is up and the upload resolved. */
  predicate Picks(outcomes: seq<Outcome>, ok: seq<bool>, i: int)
    requires |ok| == |outcomes|
  {
    0 <= i < |ok| && ok[i] && outcomes[i].Uploaded?
  }

  /** The attachments of the picked positions, walked from the first to the last. */
  function Collect(outcomes: seq<Outcome>, ok: seq<bool>): seq<Attachment>
    requires |ok| == |outcomes|
  {
    if ok == [] then []
    else
      var n := |ok| - 1;
      Collect(outcomes[..n], ok[..n]) + (if ok[n] && outcomes[n].Uploaded? then [outcomes[n].attachment] else [])
  }

  /** The picked positions, in the order they are walked. */
  function Picked(outcomes: seq<Outcome>, ok: seq<bool>): seq<int>
    requires |ok| == |outcomes|
  {
    if ok == [] then []
    else
      var n := |ok| - 1;
      Picked(outcomes[..n], ok[..n]) + (if Picks(outcomes, ok, n) then [n] else [])
  }

  predicate StrictlyIncreasing(idx: seq<int>)
  {
    forall k, l :: 0 <= k < l < |idx| ==> idx[k] < idx[l]
  }

  lemma AppendIncreasing(pre: seq<int>, n: int)
    requires StrictlyIncreasing(pre)
    requires forall k :: 0 <= k < |pre| ==> pre[k] < n
    ensures StrictlyIncreasing(pre + [n])
  {
    var idx := pre + [n];
    forall k, l | 0 <= k < l < |idx| ensures idx[k] < idx[l] {
      if l < |pre| {
        assert idx[k] == pre[k] && idx[l] == pre[l];
      } else {
        assert idx[k] == pre[k];
      }
    }
  }

  /** The picked positions are increasing, each one is picked, and every picked position is
      listed. */
  lemma {:induction false} PickedSpec(outcomes: seq<Outcome>, ok: seq<bool>)
    requires |ok| == |outcomes|
    ensures var idx := Picked(outcomes, ok);
            && StrictlyIncreasing(idx)
            && (forall k :: 0 <= k < |idx| ==> Picks(outcomes, ok, idx[k]))
            && (forall i :: Picks(outcomes, ok, i) ==> i in idx)
  {
    if ok != [] {
      var n := |ok| - 1;
      var os, fs := outcomes[..n], ok[..n];
      PickedSpec(os, fs);
      var pre := Picked(os, fs);
      var idx := Picked(outcomes, ok);
      assert idx == pre + (if Picks(outcomes, ok, n) then [n] else []);
      forall i | 0 <= i < n
        ensures Picks(os, fs, i) == Picks(outcomes, ok, i)
      {
        assert fs[i] == ok[i] && os[i] == outcomes[i];
      }
      forall k | 0 <= k < |pre| ensures pre[k] < n {
        assert Picks(os, fs, pre[k]);
      }
      if Picks(outcomes, ok, n) {
        AppendIncreasing(pre, n);
      }
      forall i | Picks(outcomes, ok, i) ensures i in idx {
        if i < n {
          assert Picks(os, fs, i);
          assert i in pre;
        }
      }
    }
  }

  /** The collected list is the attachments of the picked positions, in order. */
  lemma {:induction false} CollectInOrder(outcomes: seq<Outcome>, ok: seq<bool>)
    requires |ok| == |outcomes|
    ensures var idx := Picked(outcomes, ok);
            |Collect(outcomes, ok)| == |idx|
            && forall k :: 0 <= k < |idx| ==> 0 <= idx[k] < |ok| && outcomes[idx[k]].Uploaded?
                                              && Collect(outcomes, ok)[k] == outcomes[idx[k]].attachment
  {
    if ok != [] {
      var n := |ok| - 1;
      var os, fs := outcomes[..n], ok[..n];
      CollectInOrder(os, fs);
      var pre := Picked(os, fs);
      forall k | 0 <= k < |pre| ensures outcomes[pre[k]] == os[pre[k]] { }
    }
  }

  /** What the sequential loop over `files` appends, `outcomes[i]` being how the upload of
      `files[i]` would settle. */
  function Kept(files: seq<File>, outcomes: seq<Outcome>, accepted: seq<string>): seq<Attachment>
    requires |outcomes| == |files|
  {
    Collect(outcomes, AcceptedFlags(files, accepted))
  }

  /** One more file walked appends what that file contributes. */
  lemma KeptStep(files: seq<File>, outcomes: seq<Outcome>, accepted: seq<string>, i: int)
    requires |outcomes| == |files|
    requires 0 <= i < |files|
    ensures Kept(files[..i + 1], outcomes[..i + 1], accepted)
            == Kept(files[..i], outcomes[..i], accepted) + KeptOne(files[i], outcomes[i], accepted)
  {
    var ok := AcceptedFlags(files[..i + 1], accepted);
    assert files[..i + 1][..i] == files[..i];
    assert outcomes[..i + 1][..i] == outcomes[..i];
    assert ok[..i] == AcceptedFlags(files[..i], accepted);
  }

  /** File `i` passes the filter and its upload resolved. */
  predicate Contributes(files: seq<File>, outcomes: seq<Outcome>, accepted: seq<string>, i: int)
    requires |outcomes| == |files|
  {
    0 <= i < |files| && Accepts(accepted, files[i].name) && outcomes[i].Uploaded?
  }

  /** The positions of the files that contribute, in increasing order. */
  function KeptIndices(files: seq<File>, outcomes: seq<Outcome>, accepted: seq<string>): seq<int>
    requires |outcomes| == |files|
  {
    Picked(outcomes, AcceptedFlags(files, accepted))
  }

  /** The appended list holds, in input order, the attachment of every file that passed the
      filter and uploaded, and nothing else: rejected files and failed uploads leave no trace,
      and a failure does not stop the files after it. */
  lemma KeptInOrder(files: seq<File>, outcomes: seq<Outcome>, accepted: seq<string>)
    requires |outcomes| == |files|
    ensures var idx := KeptIndices(files, outcomes, accepted);
            && StrictlyIncreasing(idx)
            && (forall i :: Contributes(files, outcomes, accepted, i) <==> i in idx)
            && |Kept(files, outcomes, accepted)| == |idx|
            && forall k :: 0 <= k < |idx| ==> 0 <= idx[k] < |outcomes| && outcomes[idx[k]].Uploaded?
                                              && Kept(files, outcomes, accepted)[k] == outcomes[idx[k]].attachment
  {
    var ok := AcceptedFlags(files, accepted);
    AcceptedFlagsSpec(files, accepted);
    PickedSpec(outcomes, ok);
    CollectInOrder(outcomes, ok);
    var idx := Picked(outcomes, ok);
    forall i ensures Contributes(files, outcomes, accepted, i) <==> i in idx {
      if i in idx {
        var k :| 0 <= k < |idx| && idx[k] == i;
        assert Picks(outcomes, ok, idx[k]);
      } else {
        assert !Picks(outcomes, ok, i);
      }
    }
  }

  /** `prev.filter((_, i) => i !== index)`, walked from position `from`. */
  function FilterIndex<T>(xs: seq<T>, index: int, from: int): seq<T>
    decreases |xs|
  {
    if xs == [] then []
    else (if from == index then [] else [xs[0]]) + FilterIndex(xs[1..], index, from + 1)
  }

  /** `removeFile(index)` / `removeAttachment(index)`. */
  function RemoveAt<T>(xs: seq<T>, index: int): seq<T>
  {
    FilterIndex(xs, index, 0)
  }

  lemma {:induction false} FilterIndexSlices<T>(xs: seq<T>, index: int, from: int)
    ensures FilterIndex(xs, index, from)
            == if from <= index < from + |xs| then xs[..index - from] + xs[index - from + 1..] else xs
    decreases |xs|
  {
    if xs != [] {
      FilterIndexSlices(xs[1..], index, from + 1);
      if from < index < from + |xs| {
        assert xs[..index - from] == [xs[0]] + xs[1..][..index - from - 1];
        assert xs[index - from + 1..] == xs[1..][index - from..];
      } else if index != from {
        assert xs == [xs[0]] + xs[1..];
      }
    }
  }

  /** Removal takes out exactly the element at `index` and keeps the rest in order; an index
      outside the list leaves it as it was. */
  lemma RemoveAtSpec<T>(xs: seq<T>, index: int)
    ensures 0 <= index < |xs| ==> RemoveAt(xs, index) == xs[..index] + xs[index + 1..]
    ensures 0 <= index < |xs| ==> |RemoveAt(xs, index)| == |xs| - 1
    ensures !(0 <= index < |xs|) ==> RemoveAt(xs, index) == xs
  {
    FilterIndexSlices(xs, index, 0);
  }

  /** The batch [a.pdf, b.exe, c.docx], all uploads resolving, keeps the records of a.pdf and
      c.docx in that order; b.exe is skipped without an error. */
  lemma BatchExample(a: Attachment, b: Attachment, c: Attachment)
    ensures var files := [File("a.pdf", 1, "application/pdf"), File("b.exe", 2, ""), File("c.docx", 3, "")];
            Kept(files, [Uploaded(a), Uploaded(b), Uploaded(c)], AcceptedTypes) == [a, c]
  {
    var files := [File("a.pdf", 1, "application/pdf"), File("b.exe", 2, ""), File("c.docx", 3, "")];
    var outs := [Uploaded(a), Uploaded(b), Uploaded(c)];
    AcceptsExamples();
    KeptStep(files, outs, AcceptedTypes, 0);
    KeptStep(files, outs, AcceptedTypes, 1);
    KeptStep(files, outs, AcceptedTypes, 2);
    assert files[..0] == [] && outs[..0] == [];
    assert files[..3] == files && outs[..3] == outs;
  }

  lemma AcceptsExamples()
    ensures Accepts(AcceptedTypes, "a.pdf")
    ensures !Accepts(AcceptedTypes, "b.exe")
    ensures Accepts(AcceptedTypes, "c.docx")
  {
    ExtensionOf("a", "pdf");
    ExtensionOf("b", "exe");
    ExtensionOf("c", "docx");
    assert "a" + "." + "pdf" == "a.pdf" && "b" + "." + "exe" == "b.exe" && "c" + "." + "docx" == "c.docx";
    assert Extension("a.pdf") == ".pdf" && Extension("b.exe") == ".exe" && Extension("c.docx") == ".docx";
    assert AcceptedTypes[0] == ".pdf" && AcceptedTypes[2] == ".docx";
    forall k | 0 <= k < |AcceptedTypes| ensures AcceptedTypes[k] != ".exe" {
      assert AcceptedTypes[k][1] != 'e';
    }
  }

  /** A lower-case tail after the last dot is the extension as it stands. */
  lemma ExtensionOf(stem: string, tail: string)
    requires '.' !in tail
    requires forall k :: 0 <= k < |tail| ==> !IsCapital(tail[k])
    ensures Extension(stem + "." + tail) == "." + tail
  {
    ExtensionAfterLastDot(stem, tail);
    ToLowerKeepsLower(tail);
  }

  /** The filter ignores the case of the extension: "a.b.PDF" has the extension of "a.b.pdf". */
  lemma ExtensionIgnoresCase(stem: string, tail: string)
    requires '.' !in tail
    ensures Extension(stem + "." + tail) == Extension(stem + "." + ToLower(tail))
  {
    ToLowerSpec(tail);
    assert '.' !in ToLower(tail) by {
      forall k | 0 <= k < |tail| ensures ToLower(tail)[k] != '.' {
        assert tail[k] != '.';
      }
    }
    ExtensionAfterLastDot(stem, tail);
    ExtensionAfterLastDot(stem, ToLower(tail));
    ToLowerIdempotent(tail);
  }

  /** `removeAttachment(1)` on [X, Y, Z] leaves [X, Z]. */
  lemma RemoveExample<T>(x: T, y: T, z: T)
    ensures RemoveAt([x, y, z], 1) == [x, z]
  {
    RemoveAtSpec([x, y, z], 1);
  }
}
