/** The single-line excerpt of a comment body shown when a comment is reported. */
module Snippets {
  import opened Items

  const MaxLength: nat := 60
  const KeepLength: nat := 57
  const Ellipsis: string := "..."

  /** A newline becomes a space; every other character is kept. */
  function OneLine(ch: char): char
  {
    if ch == '\n' then ' ' else ch
  }

  /** Every newline of `s` replaced by a space. */
  function Flatten(s: string): (r: string)
    ensures |r| == |s|
    ensures forall i :: 0 <= i < |s| ==> r[i] == OneLine(s[i])
    ensures '\n' !in r
    decreases |s|
  {
    if |s| == 0 then "" else Flatten(s[..|s| - 1]) + [OneLine(s[|s| - 1])]
  }

  /** A missing body reads as the empty text. */
  function BodyText(body: Option<string>): string
  {
    match body
    case None => ""
    case Some(b) => b
  }

  /** The excerpt: the body on one line, cut to 57 characters plus an
      ellipsis when it is longer than 60. */
  function Snippet(body: Option<string>): (s: string)
    ensures '\n' !in s
    ensures |BodyText(body)| <= MaxLength ==> |s| == |BodyText(body)|
    ensures |BodyText(body)| > MaxLength ==> |s| == MaxLength && s[KeepLength..] == Ellipsis
    ensures forall i :: 0 <= i < |s| && (i < KeepLength || |BodyText(body)| <= MaxLength) ==>
      s[i] == OneLine(BodyText(body)[i])
  {
    var flat := Flatten(BodyText(body));
    if |flat| > MaxLength then flat[..KeepLength] + Ellipsis else flat
  }

  /** The excerpt is never longer than 60 characters, an absent or empty
      body gives the empty excerpt, and a body that fits on one line of 60
      characters is shown unchanged. */
  lemma SnippetBounds(body: Option<string>)
    ensures |Snippet(body)| <= MaxLength
    ensures BodyText(body) == "" ==> Snippet(body) == ""
    ensures |BodyText(body)| <= MaxLength && '\n' !in BodyText(body) ==> Snippet(body) == BodyText(body)
  {
    var b := BodyText(body);
    if |b| <= MaxLength && '\n' !in b {
      assert forall i :: 0 <= i < |b| ==> Snippet(body)[i] == b[i];
    }
  }

  /** A two-line body of 78 characters becomes one line of exactly 60:
      the newline turns into a space and the tail gives way to the ellipsis. */
  lemma TwoLineBodyExample()
    ensures Snippet(Some("line one" + "\n" + ("line two with " + "extra padding " + "to exceed " + "sixty tota") + "l characters for sure"))
         == "line one" + " " + ("line two with " + "extra padding " + "to exceed " + "sixty tota") + "..."
  {
    var first := "line one";
    var second := "line two with " + "extra padding " + "to exceed " + "sixty tota";
    var b := first + "\n" + second + "l characters for sure";
    var kept := first + " " + second;
    assert '\n' !in first && '\n' !in second;
    var s := Snippet(Some(b));
    forall i | 0 <= i < KeepLength
      ensures s[i] == kept[i]
    {
      if i < |first| {
        assert b[i] == first[i];
      } else if i > |first| {
        assert b[i] == second[i - |first| - 1];
      }
    }
    assert s == s[..KeepLength] + s[KeepLength..];
    assert s[..KeepLength] == kept;
  }
}
