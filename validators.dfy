/**
  The project-name validator used by the interactive prompt: a type check
  on the answer, then the pattern ^[a-zA-Z][a-zA-Z0-9_-]+$ .
*/
module Validators {
  import opened Text

  /** The prompt hands the validator an untyped answer. */
  datatype Answer = Str(s: string) | NonString

  datatype ValidationError = InvalidType | BadProjectName

  /** The text of the error ValidateProjectName returns: never empty. */
  function Message(e: ValidationError): (m: string)
    ensures m != []
  {
    match e
    case InvalidType => "invalid type of input"
    case BadProjectName => "project name must start with a letter and contain only alphanumeric characters, dashes, or underscores"
  }

  /** The two errors have different texts, so the prompt shows which check failed. */
  lemma MessagesDistinct()
    ensures Message(InvalidType) != Message(BadProjectName)
  {
    assert |Message(InvalidType)| < |Message(BadProjectName)|;
  }

  /** The character class [a-zA-Z0-9_-]. */
  predicate IsNameChar(c: char) {
    IsLetter(c) || IsDigit(c) || c == '_' || c == '-'
  }

  /** The rule the pattern expresses: at least two characters, an ASCII letter first, name characters after it. */
  ghost predicate IsValidProjectName(name: string) {
    |name| >= 2 && IsLetter(name[0]) && forall i :: 1 <= i < |name| ==> IsNameChar(name[i])
  }

  /** [a-zA-Z0-9_-]+$ : one or more name characters, up to the end of the text. */
  function MatchNameChars(s: string): (r: bool)
    ensures r <==> |s| >= 1 && forall i :: 0 <= i < |s| ==> IsNameChar(s[i])
  {
    |s| >= 1 && IsNameChar(s[0]) && (|s| == 1 || MatchNameChars(s[1..]))
  }

  /** ^[a-zA-Z][a-zA-Z0-9_-]+$ matched piece by piece. */
  function MatchProjectName(name: string): (r: bool)
    ensures r <==> IsValidProjectName(name)
  {
    |name| >= 1 && IsLetter(name[0]) && MatchNameChars(name[1..])
  }

  /** ValidateProjectName: None stands for a nil error. */
  function ValidateProjectName(answer: Answer): (r: Option<ValidationError>)
    ensures answer.NonString? ==> r == Some(InvalidType)
    ensures answer.Str? ==> (r.None? <==> IsValidProjectName(answer.s))
    ensures answer.Str? && r.Some? ==> r.value == BadProjectName
  {
    match answer
    case NonString => Some(InvalidType)
    case Str(name) => if MatchProjectName(name) then None else Some(BadProjectName)
  }

  /** The empty name and one-character names are rejected. */
  lemma ShortNamesRejected(name: string)
    requires |name| < 2
    ensures ValidateProjectName(Str(name)) == Some(BadProjectName)
  {
  }

  /** '_' and '-' are allowed after the first character only. */
  lemma SeparatorsNotFirst(name: string)
    requires |name| >= 2 && IsNameChar(name[0]) && !IsLetter(name[0]) && !IsDigit(name[0])
    ensures ValidateProjectName(Str(name)) == Some(BadProjectName)
    ensures ValidateProjectName(Str("a" + name)).None? <==> MatchNameChars(name)
  {
    assert ("a" + name)[1..] == name;
  }

  /** A character outside ASCII (an accented letter, say) anywhere in the name rejects it. */
  lemma NonAsciiRejected(name: string, i: nat)
    requires i < |name| && name[i] > '\U{7F}'
    ensures ValidateProjectName(Str(name)) == Some(BadProjectName)
  {
    assert !IsNameChar(name[i]);
  }

  /** A name made of a letter and then name characters is accepted. */
  lemma WellFormedAccepted(first: char, rest: string)
    requires IsLetter(first) && rest != [] && forall i :: 0 <= i < |rest| ==> IsNameChar(rest[i])
    ensures ValidateProjectName(Str([first] + rest)) == None
  {
    var name := [first] + rest;
    assert forall i :: 1 <= i < |name| ==> name[i] == rest[i - 1];
  }
}
