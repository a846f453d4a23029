// The response cleanup of the chat route: two global regular-expression
// replacements, the first deleting `input:` and the whitespace after it, the
// second deleting `output:` and the whitespace after it (`\s*` is greedy).
// Each is one left-to-right pass that deletes every match of the label
// followed by its longest whitespace run; matching is case-sensitive.
module LabelCleanup {
  import opened Text

  const InputLabel := "input:"
  const OutputLabel := "output:"

  /** A label that starts with a non-whitespace character which does not
      recur inside it: two of its occurrences never overlap, and a whitespace
      run never reaches into one. Both labels of the route are of this kind. */
  predicate WellFormedLabel(tag: string)
  {
    tag != [] && !IsSpace(tag[0]) && forall k :: 0 < k < |tag| ==> tag[k] != tag[0]
  }

  /** The text after an occurrence of `tag` at `i` and the whitespace run that follows it. */
  function After(s: string, tag: string, i: nat): (a: string)
    requires i + |tag| <= |s|
    ensures i + |tag| + |a| <= |s|
  {
    s[i + |tag| + SpaceRun(s[i + |tag|..])..]
  }

  // One global replacement pass of the pattern `tag\s*` by the empty string.
  function RemoveLabel(s: string, tag: string): (r: string)
    requires tag != []
    ensures |r| <= |s|
    decreases |s|
  {
    if s == [] then []
    else if StartsWith(s, tag) then RemoveLabel(After(s, tag, 0), tag)
    else [s[0]] + RemoveLabel(s[1..], tag)
  }

  /** The whole cleanup: first every `input:`, then every `output:`. It never
      lengthens the text. */
  function Cleanup(s: string): (r: string)
    ensures |r| <= |s|
  {
    RemoveLabel(RemoveLabel(s, InputLabel), OutputLabel)
  }

  /** A pass leaves text without the label exactly as it was. */
  lemma {:induction false} LabelFreeUnchanged(s: string, tag: string)
    requires tag != [] && !Contains(s, tag)
    ensures RemoveLabel(s, tag) == s
  {
    if s != [] {
      assert !OccursAt(s, tag, 0);
      forall i | 0 <= i <= |s[1..]| - |tag| && OccursAt(s[1..], tag, i)
        ensures false
      {
        assert s[1..][i..i + |tag|] == s[i + 1..i + 1 + |tag|];
        assert OccursAt(s, tag, i + 1);
      }
      LabelFreeUnchanged(s[1..], tag);
    }
  }

  /** A whitespace run that ends inside a prefix is measured the same on the prefix. */
  lemma {:induction false} SpaceRunOfPrefix(t: string, k: nat)
    requires SpaceRun(t) <= k <= |t|
    ensures SpaceRun(t[..k]) == SpaceRun(t)
  {
    if k > 0 && IsSpace(t[0]) {
      assert t[..k][1..] == t[1..][..k - 1];
      SpaceRunOfPrefix(t[1..], k - 1);
    }
  }

  // Proof hint: `After` unfolded, for callers that reason about the slice.
  lemma AfterAt(s: string, tag: string, i: nat)
    requires i + |tag| <= |s|
    ensures After(s, tag, i) == s[i + |tag| + SpaceRun(s[i + |tag|..])..]
  {
  }

  lemma AfterShift(s: string, tag: string, i: nat, d: nat)
    requires d <= i && i + |tag| <= |s|
    ensures After(s[d..], tag, i - d) == After(s, tag, i)
  {
    assert s[d..][i - d + |tag|..] == s[i + |tag|..];
  }

  /** Every occurrence of a well-formed label `tag` in the input is deleted together
      with the whitespace run after it, and the text on either side is cleaned
      as if the other side were not there. */
  lemma {:induction false} OccurrenceRemoved(s: string, tag: string, i: nat)
    requires WellFormedLabel(tag) && OccursAt(s, tag, i)
    ensures RemoveLabel(s, tag) == RemoveLabel(s[..i], tag) + RemoveLabel(After(s, tag, i), tag)
    decreases i, 1
  {
    if i == 0 {
      assert s[..0] == [];
      assert StartsWith(s, tag);
      UnfoldMatch(s, tag);
    } else if StartsWith(s, tag) {
      OccurrenceAfterMatch(s, tag, i);
    } else {
      OccurrenceAfterKeep(s, tag, i);
    }
  }

  // Proof hints: one step of `RemoveLabel` and sequence regrouping, kept as
  // separate lemmas so that each proof unfolds only the step it needs.
  lemma UnfoldMatch(s: string, tag: string)
    requires tag != [] && StartsWith(s, tag)
    ensures RemoveLabel(s, tag) == RemoveLabel(After(s, tag, 0), tag)
  {
  }

  lemma UnfoldKeep(s: string, tag: string)
    requires tag != [] && s != [] && !StartsWith(s, tag)
    ensures RemoveLabel(s, tag) == [s[0]] + RemoveLabel(s[1..], tag)
  {
  }

  lemma Associative(a: string, b: string, c: string)
    ensures (a + b) + c == a + (b + c)
  {
  }

  /** An occurrence at `i` is one at `i - d` once `d` characters are dropped. */
  lemma OccursAfterDrop(s: string, tag: string, i: nat, d: nat)
    requires OccursAt(s, tag, i) && d <= i
    ensures OccursAt(s[d..], tag, i - d)
  {
    assert s[d..][i - d..i - d + |tag|] == s[i..i + |tag|];
  }

  // Proof hint: slicing after a drop, as a single fact.
  lemma DropTake(s: string, d: nat, i: nat)
    requires d <= i <= |s|
    ensures s[d..][..i - d] == s[d..i] == s[..i][d..]
  {
  }

  /** A match at the start ends, whitespace run included, no later than the
      start of any other occurrence. */
  lemma MatchEndsBefore(s: string, tag: string, i: nat)
    requires WellFormedLabel(tag) && OccursAt(s, tag, i)
    requires 0 < i && StartsWith(s, tag)
    ensures |tag| + SpaceRun(s[|tag|..]) <= i
  {
    var m := |tag|;
    assert s[i] == tag[0] by { assert s[i..i + m][0] == s[i]; }
    assert s[m..][i - m] == s[i];
  }

  /** Cutting the text at a later occurrence keeps the first match and its whitespace run. */
  lemma PrefixKeepsMatch(s: string, tag: string, i: nat)
    requires tag != [] && StartsWith(s, tag)
    requires |tag| + SpaceRun(s[|tag|..]) <= i <= |s|
    ensures StartsWith(s[..i], tag)
    ensures After(s[..i], tag, 0) == s[|tag| + SpaceRun(s[|tag|..])..i]
  {
    var m := |tag|;
    var rest := s[m..];
    assert s[..i][..m] == s[..m];
    assert s[..i][m..] == rest[..i - m];
    SpaceRunOfPrefix(rest, i - m);
  }

  /** Cutting the text before a later occurrence keeps a first character that starts no match. */
  lemma PrefixKeepsFirst(s: string, tag: string, i: nat)
    requires tag != [] && OccursAt(s, tag, i)
    requires 0 < i && !StartsWith(s, tag)
    ensures RemoveLabel(s[..i], tag) == [s[0]] + RemoveLabel(s[1..i], tag)
  {
    var pre := s[..i];
    DropTake(s, 1, i);
    UnfoldKeep(pre, tag);
  }

  /** What is left after a match at the start still holds the later
      occurrence, and cutting the text at that occurrence cuts what is left
      at the same place. */
  lemma HeadFacts(s: string, tag: string, i: nat)
    requires WellFormedLabel(tag) && OccursAt(s, tag, i)
    requires 0 < i && StartsWith(s, tag)
    ensures |tag| + SpaceRun(s[|tag|..]) <= i
    ensures OccursAt(After(s, tag, 0), tag, i - (|tag| + SpaceRun(s[|tag|..])))
    ensures After(After(s, tag, 0), tag, i - (|tag| + SpaceRun(s[|tag|..]))) == After(s, tag, i)
    ensures StartsWith(s[..i], tag)
    ensures After(s[..i], tag, 0) == After(s, tag, 0)[..i - (|tag| + SpaceRun(s[|tag|..]))]
  {
    var n := |tag| + SpaceRun(s[|tag|..]);
    MatchEndsBefore(s, tag, i);
    var t := After(s, tag, 0);
    assert t == s[n..] by {
      AfterAt(s, tag, 0);
    }
    assert OccursAt(t, tag, i - n) by {
      OccursAfterDrop(s, tag, i, n);
    }
    assert After(t, tag, i - n) == After(s, tag, i) by {
      AfterShift(s, tag, i, n);
    }
    assert StartsWith(s[..i], tag) && After(s[..i], tag, 0) == t[..i - n] by {
      PrefixKeepsMatch(s, tag, i);
      DropTake(s, n, i);
    }
  }

  /** OccurrenceRemoved when an earlier match starts the text. */
  lemma {:induction false} OccurrenceAfterMatch(s: string, tag: string, i: nat)
    requires WellFormedLabel(tag) && OccursAt(s, tag, i)
    requires 0 < i && StartsWith(s, tag)
    ensures RemoveLabel(s, tag) == RemoveLabel(s[..i], tag) + RemoveLabel(After(s, tag, i), tag)
    decreases i, 0
  {
    var n := |tag| + SpaceRun(s[|tag|..]);
    var t := After(s, tag, 0);
    var a, b := After(s[..i], tag, 0), After(s, tag, i);
    assert n <= i && StartsWith(s[..i], tag) by {
      HeadFacts(s, tag, i);
    }
    assert RemoveLabel(t, tag) == RemoveLabel(a, tag) + RemoveLabel(b, tag) by {
      HeadFacts(s, tag, i);
      OccurrenceRemoved(t, tag, i - n);
    }
    assert RemoveLabel(s, tag) == RemoveLabel(t, tag) by {
      UnfoldMatch(s, tag);
    }
    assert RemoveLabel(s[..i], tag) == RemoveLabel(a, tag) by {
      UnfoldMatch(s[..i], tag);
    }
  }

  /** OccurrenceRemoved when the text starts with a kept character. */
  lemma {:induction false} OccurrenceAfterKeep(s: string, tag: string, i: nat)
    requires WellFormedLabel(tag) && OccursAt(s, tag, i)
    requires 0 < i && !StartsWith(s, tag)
    ensures RemoveLabel(s, tag) == RemoveLabel(s[..i], tag) + RemoveLabel(After(s, tag, i), tag)
    decreases i, 0
  {
    var t := s[1..];
    var a, b := RemoveLabel(s[1..i], tag), RemoveLabel(After(s, tag, i), tag);
    assert RemoveLabel(t, tag) == a + b by {
      assert OccursAt(t, tag, i - 1) && After(t, tag, i - 1) == After(s, tag, i) && t[..i - 1] == s[1..i] by {
        OccursAfterDrop(s, tag, i, 1);
        AfterShift(s, tag, i, 1);
        DropTake(s, 1, i);
      }
      OccurrenceRemoved(t, tag, i - 1);
    }
    assert RemoveLabel(s, tag) == [s[0]] + (a + b) by {
      UnfoldKeep(s, tag);
    }
    assert RemoveLabel(s[..i], tag) == [s[0]] + a by {
      PrefixKeepsFirst(s, tag, i);
    }
    Associative([s[0]], a, b);
  }

  /** Text with neither label comes back unchanged. */
  lemma {:induction false} CleanupLabelFree(s: string)
    requires !Contains(s, InputLabel) && !Contains(s, OutputLabel)
    ensures Cleanup(s) == s
  {
    LabelFreeUnchanged(s, InputLabel);
    LabelFreeUnchanged(s, OutputLabel);
  }

  /** Text in which no match can start passes through a pass unchanged, and
      the pass goes on with what follows. */
  lemma {:induction false} KeepFree(m: string, t: string, tag: string)
    requires tag != [] && tag[0] !in m
    ensures RemoveLabel(m + t, tag) == m + RemoveLabel(t, tag)
    decreases |m|
  {
    if m == [] {
      assert m + t == t;
    } else {
      var s := m + t;
      assert !StartsWith(s, tag) by {
        assert |tag| <= |s| ==> s[..|tag|][0] == m[0];
      }
      UnfoldKeep(s, tag);
      assert s[1..] == m[1..] + t;
      KeepFree(m[1..], t, tag);
    }
  }

  /** A whitespace run stops at the first character that is not whitespace. */
  lemma {:induction false} SpaceRunStops(a: string, c: char, t: string)
    requires !IsSpace(c)
    ensures SpaceRun(a + [c] + t) == SpaceRun(a)
    decreases |a|
  {
    if a != [] && IsSpace(a[0]) {
      assert (a + [c] + t)[1..] == a[1..] + [c] + t;
      SpaceRunStops(a[1..], c, t);
    }
  }

  /** A whitespace run over blank text ends where the blank text does, when
      what follows does not start with whitespace. */
  lemma {:induction false} SpaceRunOver(w: string, u: string)
    requires IsBlank(w) && (u == [] || !IsSpace(u[0]))
    ensures SpaceRun(w + u) == |w|
    decreases |w|
  {
    if w != [] {
      assert (w + u)[1..] == w[1..] + u;
      SpaceRunOver(w[1..], u);
    } else {
      assert w + u == u;
    }
  }

  /** A match needs all of its characters, so one at the start cannot reach
      over a character that is not in the label, and the text after the
      match and its whitespace run still holds that character. */
  lemma MatchBeforeForeign(h: string, c: char, t: string, tag: string)
    requires c !in tag && !IsSpace(c) && StartsWith(h + [c] + t, tag)
    ensures StartsWith(h, tag)
    ensures After(h + [c] + t, tag, 0) == After(h, tag, 0) + [c] + t
  {
    var s, m := h + [c] + t, |tag|;
    assert s[|h|] == c;
    assert c !in s[..m];
    assert h[..m] == s[..m];
    assert s[m..] == h[m..] + [c] + t;
    SpaceRunStops(h[m..], c, t);
  }

  /** A character that starts no match before `c` starts none before `c + t` either. */
  lemma NoMatchBeforeForeign(h: string, c: char, t: string, tag: string)
    requires c !in tag && h != [] && !StartsWith(h + [c] + t, tag)
    ensures !StartsWith(h, tag)
    ensures (h + [c] + t)[1..] == h[1..] + [c] + t
  {
    var s := h + [c] + t;
    assert |tag| <= |h| ==> s[..|tag|] == h[..|tag|];
  }

  /** A pass is cleaned on either side of a character that is neither
      whitespace nor part of the label: no match and no whitespace run
      reaches over it. */
  lemma {:induction false} KeepAcross(h: string, c: char, t: string, tag: string)
    requires WellFormedLabel(tag) && c !in tag && !IsSpace(c)
    ensures RemoveLabel(h + [c] + t, tag) == RemoveLabel(h, tag) + [c] + RemoveLabel(t, tag)
    decreases |h|
  {
    var s := h + [c] + t;
    if h == [] {
      assert !StartsWith(s, tag) by {
        assert |tag| <= |s| ==> s[..|tag|][0] == c;
      }
      UnfoldKeep(s, tag);
      assert s[1..] == t;
    } else if StartsWith(s, tag) {
      MatchBeforeForeign(h, c, t, tag);
      UnfoldMatch(s, tag);
      UnfoldMatch(h, tag);
      KeepAcross(After(h, tag, 0), c, t, tag);
    } else {
      NoMatchBeforeForeign(h, c, t, tag);
      UnfoldKeep(s, tag);
      UnfoldKeep(h, tag);
      KeepAcross(h[1..], c, t, tag);
    }
  }

  /** A pass over text that does not start with whitespace gives text that
      does not start with whitespace: a deletion always ends before a
      character that is not whitespace, or at the end. */
  lemma {:induction false} LeadKept(t: string, tag: string)
    requires tag != [] && (t == [] || !IsSpace(t[0]))
    ensures RemoveLabel(t, tag) == [] || !IsSpace(RemoveLabel(t, tag)[0])
    decreases |t|
  {
    if t != [] {
      if StartsWith(t, tag) {
        var u := After(t, tag, 0);
        assert u == [] || !IsSpace(u[0]) by {
          var n := SpaceRun(t[|tag|..]);
          assert u == t[|tag|..][n..];
        }
        UnfoldMatch(t, tag);
        LeadKept(u, tag);
      } else {
        UnfoldKeep(t, tag);
      }
    }
  }

  /** The characters after the first one of `output:`, and any whitespace,
      hold no `i`: no `input:` match starts there. */
  lemma OutputTailFree(w: string)
    requires IsBlank(w)
    ensures InputLabel[0] !in OutputLabel[1..] + w
  {
    assert OutputLabel[1..] == ['u', 't', 'p', 'u', 't', ':'];
    assert forall k :: 0 <= k < |w| ==> w[k] != 'i';
  }

  /** An `output:` with its whitespace run, sitting in the model's text,
      comes through the `input:` pass intact, and the pass cleans the text on
      either side of it on its own. */
  lemma InputPassKeepsOutput(h: string, w: string, r: string)
    requires IsBlank(w)
    ensures RemoveLabel(h + OutputLabel + w + r, InputLabel)
         == RemoveLabel(h, InputLabel) + OutputLabel + w + RemoveLabel(r, InputLabel)
  {
    var o := OutputLabel[1..];
    var ph, pr := RemoveLabel(h, InputLabel), RemoveLabel(r, InputLabel);
    OutputHead();
    Regroup(h, 'o', o, w, r);
    Regroup(ph, 'o', o, w, pr);
    assert RemoveLabel(h + ['o'] + (o + w + r), InputLabel) == ph + ['o'] + RemoveLabel(o + w + r, InputLabel) by {
      LabelsWellFormed();
      KeepAcross(h, 'o', o + w + r, InputLabel);
    }
    assert RemoveLabel(o + w + r, InputLabel) == o + w + pr by {
      OutputTailFree(w);
      KeepFree(o + w, r, InputLabel);
    }
  }

  // Proof hint: concatenation regrouped around one character.
  lemma Regroup(a: string, c: char, x: string, y: string, z: string)
    ensures a + [c] + (x + y + z) == a + ([c] + x) + y + z
  {
  }

  /** `output:` starts with an `o`, which `input:` does not hold. */
  lemma OutputHead()
    ensures OutputLabel == ['o'] + OutputLabel[1..] && 'o' !in InputLabel
  {
    assert InputLabel == ['i', 'n', 'p', 'u', 't', ':'];
  }

  /** A label between two texts is deleted together with a whitespace run
      `w` that ends before text not starting with whitespace, and the texts
      on either side are cleaned each on its own. */
  lemma SplitAround(head: string, tag: string, w: string, tail: string)
    requires WellFormedLabel(tag) && IsBlank(w) && (tail == [] || !IsSpace(tail[0]))
    ensures RemoveLabel(head + tag + w + tail, tag) == RemoveLabel(head, tag) + RemoveLabel(tail, tag)
  {
    var s, i := head + tag + w + tail, |head|;
    assert OccursAt(s, tag, i) by {
      assert s[i..i + |tag|] == tag;
    }
    assert s[..i] == head;
    assert After(s, tag, i) == tail by {
      assert s[i + |tag|..] == w + tail;
      SpaceRunOver(w, tail);
      assert (w + tail)[|w|..] == tail;
    }
    SplitAt(s, tag, i, head, tail);
  }

  /** Every `output:` in the model's text is deleted by the cleanup together
      with its whitespace run, and the text on either side is cleaned as if
      the other side were not there. (An `input:` is deleted by the first pass,
      `OccurrenceRemoved`; the second pass may then meet a label spliced
      together around it, `PassCanSpliceLabel`.) */
  lemma OutputOccurrenceRemoved(s: string, i: nat)
    requires OccursAt(s, OutputLabel, i)
    ensures Cleanup(s) == Cleanup(s[..i]) + Cleanup(After(s, OutputLabel, i))
  {
    LabelsWellFormed();
    var m := |OutputLabel|;
    var n := SpaceRun(s[i + m..]);
    var h, w, r := s[..i], s[i + m..i + m + n], After(s, OutputLabel, i);
    assert s == h + OutputLabel + w + r by {
      assert r == s[i + m + n..];
      assert s[i..i + m] == OutputLabel;
    }
    assert IsBlank(w) && (r == [] || !IsSpace(r[0])) by {
      assert r == s[i + m..][n..];
      assert forall k :: 0 <= k < n ==> w[k] == s[i + m..][k];
    }
    InputPassKeepsOutput(h, w, r);
    LeadKept(r, InputLabel);
    SplitAround(RemoveLabel(h, InputLabel), OutputLabel, w, RemoveLabel(r, InputLabel));
  }

  /** Matching is case-sensitive: capitalised labels survive. */
  lemma CapitalisedLabelsSurvive()
    ensures Cleanup("Input: Output: OK") == "Input: Output: OK"
  {
    AbsentChar("Input: Output: OK", InputLabel, 0);
    AbsentChar("Input: Output: OK", OutputLabel, 0);
    CleanupLabelFree("Input: Output: OK");
  }

  /** OccurrenceRemoved for a known text before and after the occurrence. */
  lemma SplitAt(s: string, tag: string, i: nat, head: string, tail: string)
    requires WellFormedLabel(tag) && OccursAt(s, tag, i)
    requires s[..i] == head && After(s, tag, i) == tail
    ensures RemoveLabel(s, tag) == RemoveLabel(head, tag) + RemoveLabel(tail, tag)
  {
    OccurrenceRemoved(s, tag, i);
  }

  /** A single pass can splice a new label together from the text around a
      deleted one, so one pass does not leave label-free text: the pass over
      "inpinput:ut:" leaves "input:". */
  lemma PassCanSpliceLabel()
    ensures RemoveLabel("inp" + InputLabel + "ut:", InputLabel) == InputLabel
  {
    LabelsWellFormed();
    assert "inp" + InputLabel + "ut:" == "inp" + InputLabel + "" + "ut:";
    SplitAround("inp", InputLabel, "", "ut:");
    UnchangedWithout("inp", InputLabel, 5);
    UnchangedWithout("ut:", InputLabel, 0);
  }

  /** Text missing one of the label's characters is left as it was. */
  lemma UnchangedWithout(s: string, tag: string, k: nat)
    requires k < |tag| && tag[k] !in s
    ensures RemoveLabel(s, tag) == s
  {
    AbsentChar(s, tag, k);
    LabelFreeUnchanged(s, tag);
  }

  lemma LabelsWellFormed()
    ensures WellFormedLabel(InputLabel) && WellFormedLabel(OutputLabel)
  {
    assert InputLabel == ['i', 'n', 'p', 'u', 't', ':'];
    assert OutputLabel == ['o', 'u', 't', 'p', 'u', 't', ':'];
  }

  lemma OutputLabelInside()
    ensures RemoveLabel("inp" + OutputLabel + "ut:", OutputLabel) == InputLabel
  {
    LabelsWellFormed();
    assert "inp" + OutputLabel + "ut:" == "inp" + OutputLabel + "" + "ut:";
    SplitAround("inp", OutputLabel, "", "ut:");
    UnchangedWithout("inp", OutputLabel, 0);
    UnchangedWithout("ut:", OutputLabel, 0);
  }

  lemma NoInputLabelInside(s: string)
    requires s == "inp" + OutputLabel + "ut:"
    ensures !Contains(s, InputLabel)
  {
    assert s == "inpoutput:ut:";
    forall i | 0 <= i <= |s| - |InputLabel|
      ensures !OccursAt(s, InputLabel, i)
    {
      assert s[i..i + 6][0] == s[i];
      assert s[i..i + 6][3] == s[i + 3];
    }
  }

  /** The cleanup result may still hold a label, and cleaning it again changes
      it: the cleanup is neither label-free nor idempotent. The cleanup of
      "inpoutput:ut:" is "input:", whose cleanup is empty. */
  lemma CleanupNotIdempotent()
    ensures Cleanup("inp" + OutputLabel + "ut:") == InputLabel
    ensures Contains(Cleanup("inp" + OutputLabel + "ut:"), InputLabel)
    ensures Cleanup(Cleanup("inp" + OutputLabel + "ut:")) == ""
  {
    var s := "inp" + OutputLabel + "ut:";
    assert RemoveLabel(s, InputLabel) == s by {
      NoInputLabelInside(s);
      LabelFreeUnchanged(s, InputLabel);
    }
    OutputLabelInside();
    assert Cleanup(InputLabel) == "" by {
      UnfoldMatch(InputLabel, InputLabel);
      AfterAt(InputLabel, InputLabel, 0);
    }
    assert OccursAt(InputLabel, InputLabel, 0);
  }
}
