/** The small part of the Java runtime the builders and the store rely on:
    the exceptions they can raise, java.lang.String searches, ASCII
    upper-casing and java.lang.StringBuilder. */
module JavaLang {

  /** The exceptions the modelled code raises or lets escape. */
  datatype Exception =
    | StringIndexOutOfBounds(index: int)   // StringBuilder.deleteCharAt with a bad index
    | NullPointer                           // a method called on, or a null stored into, a null reference
    | InvalidDefaultType(kind: string)      // InvalidDefaultTypeException
    | InvalidRunPhase(phase: string)        // InvalidRunPhaseException
    | UnrecognisedDbMode                    // RuntimeException("No recognised dbMode in properties file")

  /** A value, or the exception thrown instead of returning it. */
  datatype Result<+T> = Ok(value: T) | Throw(exception: Exception)

  /** Completion of a void method: normally, or by throwing. */
  datatype Outcome = Pass | Fail(exception: Exception)

  /** A Java reference that may be null. */
  datatype Option<+T> = None | Some(value: T)

  /** String.lastIndexOf(char): the index of the last occurrence of c, or -1. */
  function LastIndexOf(s: string, c: char): (i: int)
    ensures -1 <= i < |s|
    ensures 0 <= i ==> s[i] == c
    ensures forall j :: i < j < |s| ==> s[j] != c
  {
    if s == [] then -1
    else if s[|s| - 1] == c then |s| - 1
    else LastIndexOf(s[..|s| - 1], c)
  }

  /** The text left by StringBuilder.deleteCharAt(index), which throws
      unless 0 <= index < length. */
  function CharDeleted(s: string, index: int): (r: Result<string>)
    ensures r.Ok? <==> 0 <= index < |s|
    ensures r.Throw? ==> r.exception == StringIndexOutOfBounds(index)
    ensures r.Ok? ==> |r.value| == |s| - 1 && r.value[..index] == s[..index] && r.value[index..] == s[index + 1..]
  {
    if 0 <= index < |s| then Ok(s[..index] + s[index + 1..]) else Throw(StringIndexOutOfBounds(index))
  }

  /** Character.toUpperCase restricted to ASCII letters. */
  function UpperChar(c: char): char
  {
    if 'a' <= c <= 'z' then (c as int - 32) as char else c
  }

  /** String.toUpperCase on ASCII text. */
  function ToUpperCase(s: string): (r: string)
    ensures |r| == |s|
    ensures forall i :: 0 <= i < |s| ==> r[i] == UpperChar(s[i])
  {
    if s == [] then [] else [UpperChar(s[0])] + ToUpperCase(s[1..])
  }

  /** Upper-casing twice is upper-casing once. */
  lemma {:induction false} ToUpperCaseIdempotent(s: string)
    ensures ToUpperCase(ToUpperCase(s)) == ToUpperCase(s)
  {
    if s != [] {
      ToUpperCaseIdempotent(s[1..]);
    }
  }

  /** sub occurs in s starting at index i. */
  predicate OccursAt(s: string, sub: string, i: int)
  {
    0 <= i <= |s| - |sub| && s[i..i + |sub|] == sub
  }

  /** The pattern LIKE '%sub%' taken as a plain substring test. */
  predicate Contains(s: string, sub: string)
  {
    exists i | 0 <= i <= |s| - |sub| :: OccursAt(s, sub, i)
  }

  /** java.lang.StringBuilder: a mutable text. */
  class StringBuilder {
    var text: string

    constructor ()
      ensures text == ""
    {
      text := "";
    }

    method Append(s: string)
      modifies this
      ensures text == old(text) + s
    {
      text := text + s;
    }

    /** deleteCharAt(index): removes one character in place, or throws and
        leaves the text as it was. */
    method DeleteCharAt(index: int) returns (outcome: Outcome)
      modifies this
      ensures CharDeleted(old(text), index).Ok? ==> outcome == Pass && text == CharDeleted(old(text), index).value
      ensures CharDeleted(old(text), index).Throw? ==>
                outcome == Fail(StringIndexOutOfBounds(index)) && text == old(text)
    {
      var r := CharDeleted(text, index);
      if r.Ok? {
        text := r.value;
        outcome := Pass;
      } else {
        outcome := Fail(r.exception);
      }
    }
  }
}
