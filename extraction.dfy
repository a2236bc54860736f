/**
 * The deterministic part of `extract_flight_parameters` (query_handler.py):
 * removing the markdown code fence the language model may wrap its JSON reply
 * in, then decoding the reply, where a decoding failure becomes a `ValueError`.
 *
 * The language model call and the JSON decoder are outside the model: the reply
 * is a parameter, and the decoder is a parameter function that either yields the
 * decoded parameters or fails with the decoder's message.
 */
module Extraction {
  import opened Wrappers
  import opened Sequences
  import opened QueryParameters

  /** The opening fence line, with its newline. */
  const OpenFence: string := "```json\n"

  /** The closing fence line, with the newline before it. */
  const CloseFence: string := "\n```"

  /**
   * `re.sub(r'```json\n|\n```', '', s)`: scanning left to right, every occurrence
   * of either pattern is deleted and scanning resumes after it; where neither
   * matches, the character is kept.
   */
  function StripFences(s: string): (r: string)
    ensures |r| <= |s|
    decreases |s|
  {
    if s == [] then []
    else if OpenFence <= s then StripFences(s[|OpenFence|..])
    else if CloseFence <= s then StripFences(s[|CloseFence|..])
    else [s[0]] + StripFences(s[1..])
  }

  /** `p` occurs somewhere in `s`. */
  predicate Occurs(p: string, s: string)
  {
    exists i | 0 <= i <= |s| :: p <= s[i..]
  }

  /** An occurrence in the tail of `s` is an occurrence in `s`. */
  lemma OccursInTail(p: string, s: string)
    requires s != [] && Occurs(p, s[1..])
    ensures Occurs(p, s)
  {
    var i :| 0 <= i <= |s| - 1 && p <= s[1..][i..];
    assert s[1..][i..] == s[i + 1..];
  }

  /** Stripping only deletes characters: what remains is in its original order. */
  lemma {:induction false} StripFencesDeletesOnly(s: string)
    ensures IsSubsequence(StripFences(s), s)
    decreases |s|
  {
    if s == [] {
    } else if OpenFence <= s {
      StripFencesDeletesOnly(s[|OpenFence|..]);
      SubsequenceOfSuffix(StripFences(s), s, |OpenFence|);
    } else if CloseFence <= s {
      StripFencesDeletesOnly(s[|CloseFence|..]);
      SubsequenceOfSuffix(StripFences(s), s, |CloseFence|);
    } else {
      StripFencesDeletesOnly(s[1..]);
      assert ([s[0]] + StripFences(s[1..]))[1..] == StripFences(s[1..]);
    }
  }

  /** Text in which neither fence pattern occurs comes back unchanged. */
  lemma {:induction false} StripFencesUnfenced(s: string)
    requires !Occurs(OpenFence, s) && !Occurs(CloseFence, s)
    ensures StripFences(s) == s
    decreases |s|
  {
    if s != [] {
      assert s[0..] == s;
      if Occurs(OpenFence, s[1..]) {
        OccursInTail(OpenFence, s);
      }
      if Occurs(CloseFence, s[1..]) {
        OccursInTail(CloseFence, s);
      }
      StripFencesUnfenced(s[1..]);
    }
  }

  /** Text without a backtick, followed by the closing fence, loses just the fence. */
  lemma {:induction false} StripFencesBeforeClose(s: string)
    requires '`' !in s
    ensures StripFences(s + CloseFence) == s
    decreases |s|
  {
    var t := s + CloseFence;
    if s == [] {
      assert t == CloseFence;
      assert t[|CloseFence|..] == [];
    } else {
      assert t[0] == s[0] && t[1] != '`';
      assert !(OpenFence <= t) && !(CloseFence <= t);
      assert t[1..] == s[1..] + CloseFence;
      StripFencesBeforeClose(s[1..]);
    }
  }

  /** A fenced block whose text has no backtick strips to exactly that text. */
  lemma StripFencesFenced(s: string)
    requires '`' !in s
    ensures StripFences(OpenFence + s + CloseFence) == s
  {
    var t := OpenFence + s + CloseFence;
    assert OpenFence <= t;
    assert t[|OpenFence|..] == s + CloseFence;
    StripFencesBeforeClose(s);
  }

  /** The `ValueError` raised when the reply cannot be decoded. */
  datatype ParseError = ParseError(message: string)

  const ParseFailure: string := "Failed to parse Gemini response: "

  /** Strip the fences, then decode; a decoder failure is reported with its message. */
  function ExtractParameters(response: string, decode: string -> Result<Parameters, string>)
    : (r: Result<Parameters, ParseError>)
    ensures r.Success? <==> decode(StripFences(response)).Success?
    ensures r.Success? ==> r.value == decode(StripFences(response)).value
    ensures r.Failure? ==> ParseFailure + decode(StripFences(response)).error == r.error.message
  {
    match decode(StripFences(response))
    case Success(p) => Success(p)
    case Failure(e) => Failure(ParseError(ParseFailure + e))
  }

  /** Text without a backtick contains neither fence pattern, so it is left unchanged. */
  lemma StripFencesNoBacktick(s: string)
    requires '`' !in s
    ensures StripFences(s) == s
  {
    forall i | 0 <= i <= |s|
      ensures !(OpenFence <= s[i..]) && !(CloseFence <= s[i..])
    {
      if i < |s| {
        assert s[i..][0] == s[i] != '`';
      }
      if i + 1 < |s| {
        assert s[i..][1] == s[i + 1] != '`';
      }
    }
    StripFencesUnfenced(s);
  }

  /** A reply wrapped in a ```json fence decodes exactly as the unwrapped reply. */
  lemma FencedReplyDecodesAsPlain(s: string, decode: string -> Result<Parameters, string>)
    requires '`' !in s
    ensures ExtractParameters(OpenFence + s + CloseFence, decode) == ExtractParameters(s, decode)
  {
    StripFencesFenced(s);
    StripFencesNoBacktick(s);
  }
}
