/**
 * The settings page labels each webhook URL with its key turned into
 * words: a space before every upper-case letter, then lower case.
 */
module SettingsLabels {
  import opened Text

  /** `name.replace(/([A-Z])/g, ' $1')`. */
  function SpaceBeforeUpper(s: string): string
    decreases |s|
  {
    if s == [] then []
    else (if IsUpper(s[0]) then [' ', s[0]] else [s[0]]) + SpaceBeforeUpper(s[1..])
  }

  /** The label: `name.replace(/([A-Z])/g, ' $1').toLowerCase()`. */
  function Label(name: string): string {
    Lower(SpaceBeforeUpper(name))
  }

  /** How many upper-case letters `s` holds. */
  function UpperCount(s: string): nat
    decreases |s|
  {
    if s == [] then 0 else (if IsUpper(s[0]) then 1 else 0) + UpperCount(s[1..])
  }

  /** A label holds no upper-case letter. */
  lemma LabelHasNoUpper(name: string)
    ensures !HasUpper(Label(name))
  {
  }

  /** Inserting the spaces distributes over concatenation. */
  lemma {:induction false} SpaceBeforeUpperConcat(a: string, b: string)
    ensures SpaceBeforeUpper(a + b) == SpaceBeforeUpper(a) + SpaceBeforeUpper(b)
    decreases |a|
  {
    if a == [] {
      assert a + b == b;
    } else {
      assert (a + b)[0] == a[0];
      assert (a + b)[1..] == a[1..] + b;
      SpaceBeforeUpperConcat(a[1..], b);
      var x := if IsUpper(a[0]) then [' ', a[0]] else [a[0]];
      assert x + (SpaceBeforeUpper(a[1..]) + SpaceBeforeUpper(b)) == (x + SpaceBeforeUpper(a[1..])) + SpaceBeforeUpper(b);
    }
  }

  /** A label is one character longer per upper-case letter. */
  lemma {:induction false} LabelLength(name: string)
    ensures |Label(name)| == |name| + UpperCount(name)
    ensures |SpaceBeforeUpper(name)| == |name| + UpperCount(name)
    decreases |name|
  {
    if name != [] {
      LabelLength(name[1..]);
    }
  }

  /** Text without upper-case letters gets no spaces. */
  lemma {:induction false} NoUpperNoSpaces(s: string)
    requires !HasUpper(s)
    ensures SpaceBeforeUpper(s) == s
    decreases |s|
  {
    if s != [] {
      assert !HasUpper(s[1..]) by {
        forall i | 0 <= i < |s[1..]| ensures !IsUpper(s[1..][i]) {
          assert s[1..][i] == s[i + 1];
        }
      }
      NoUpperNoSpaces(s[1..]);
    }
  }

  /** A name without upper-case letters is its own label. */
  lemma LowercaseUnchanged(name: string)
    requires !HasUpper(name)
    ensures Label(name) == name
  {
    NoUpperNoSpaces(name);
    LowerOfLower(name);
  }

  /** A two-word key `headTail` becomes `head tail`. */
  lemma TwoWords(head: string, c: char, tail: string)
    requires !HasUpper(head) && !HasUpper(tail) && IsUpper(c)
    ensures Label(head + [c] + tail) == head + [' ', LowerChar(c)] + tail
  {
    SpaceBeforeUpperConcat(head + [c], tail);
    SpaceBeforeUpperConcat(head, [c]);
    NoUpperNoSpaces(head);
    NoUpperNoSpaces(tail);
    assert SpaceBeforeUpper([c]) == [' ', c];
    var spaced := head + [' ', c] + tail;
    assert SpaceBeforeUpper(head + [c] + tail) == spaced;
    var want := head + [' ', LowerChar(c)] + tail;
    forall i | 0 <= i < |spaced| ensures Lower(spaced)[i] == want[i] {
      if i < |head| {
        assert spaced[i] == head[i] && want[i] == head[i];
      } else if i >= |head| + 2 {
        assert spaced[i] == tail[i - |head| - 2] && want[i] == tail[i - |head| - 2];
      }
    }
  }

  /** `generateCaption` reads as `generate caption`. */
  lemma GenerateCaptionLabel()
    ensures Label("generateCaption") == "generate caption"
  {
    TwoWords("generate", 'C', "aption");
    assert "generate" + ['C'] + "aption" == "generateCaption";
    assert "generate" + [' ', 'c'] + "aption" == "generate caption";
  }
}
