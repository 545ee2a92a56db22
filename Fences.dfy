/** Cleaning the structure parser's response (app.py, lines 136-144): the markdown code
    fences the model sometimes wraps around its JSON are removed with two calls of Python's
    `str.replace`, then the text is handed to the JSON decoder. */
module Fences {
  import opened Wrappers

  /** The opening fence the model writes before JSON. */
  const JsonFence: string := "```json"
  /** A bare fence. */
  const Fence: string := "```"

  /** Does `pat` occur in `s` starting at index `i`? */
  predicate OccursAt(s: string, pat: string, i: int)
  {
    0 <= i && i + |pat| <= |s| && s[i..i + |pat|] == pat
  }

  /** Does `pat` occur anywhere in `s`? */
  predicate Occurs(s: string, pat: string)
  {
    exists i | 0 <= i <= |s| - |pat| :: OccursAt(s, pat, i)
  }

  /** `s.replace(pat, "")` for a non-empty `pat`: scanning left to right, every
      non-overlapping occurrence of `pat` is dropped and every other character is kept. */
  function RemoveAll(s: string, pat: string): (r: string)
    requires pat != []
    ensures |r| <= |s|
    ensures pat[0] !in s ==> r == s
    decreases |s|
  {
    if s == [] then []
    else if pat <= s then RemoveAll(s[|pat|..], pat)
    else [s[0]] + RemoveAll(s[1..], pat)
  }

  /** `json_str.replace("```json", "").replace("```", "")` (app.py line 140). */
  function StripFences(response: string): (r: string)
    ensures !Occurs(r, Fence)
    ensures '`' !in response ==> r == response
  {
    var r := RemoveAll(RemoveAll(response, JsonFence), Fence);
    NoFenceAfterRemoval(RemoveAll(response, JsonFence));
    r
  }

  /** Removing the bare fence leaves no fence behind, even where the removed pieces
      were interleaved with backticks that survive. */
  lemma {:induction false} NoFenceAfterRemoval(s: string)
    ensures !Occurs(RemoveAll(s, Fence), Fence)
    decreases |s|
  {
    if s == [] {
    } else if Fence <= s {
      NoFenceAfterRemoval(s[|Fence|..]);
    } else {
      var rest := RemoveAll(s[1..], Fence);
      var r := [s[0]] + rest;
      assert RemoveAll(s, Fence) == r;
      NoFenceAfterRemoval(s[1..]);
      if i :| OccursAt(r, Fence, i) {
        if i == 0 {
          assert false;
        } else {
          assert rest[i - 1..i - 1 + |Fence|] == r[i..i + |Fence|];
          assert OccursAt(rest, Fence, i - 1);
          assert false;
        }
      }
    }
  }

  /** A prefix that cannot start the pattern passes through removal unchanged. */
  lemma {:induction false} RemoveAllKeepsPrefix(a: string, t: string, pat: string)
    requires pat != [] && pat[0] !in a
    ensures RemoveAll(a + t, pat) == a + RemoveAll(t, pat)
    decreases |a|
  {
    if a != [] {
      assert !(pat <= a + t) by { assert (a + t)[0] == a[0]; }
      assert (a + t)[1..] == a[1..] + t;
      RemoveAllKeepsPrefix(a[1..], t, pat);
      assert RemoveAll(a + t, pat) == [a[0]] + (a[1..] + RemoveAll(t, pat));
      assert a == [a[0]] + a[1..];
    } else {
      assert a + t == t;
    }
  }

  /** Wrapping a backtick-free payload in "```json" ... "```" is undone by StripFences. */
  lemma FencedPayload(body: string)
    requires '`' !in body
    ensures StripFences(JsonFence + body + Fence) == body
  {
    var s := JsonFence + body + Fence;
    assert JsonFence <= s;
    assert s[|JsonFence|..] == body + Fence;
    RemoveAllKeepsPrefix(body, Fence, JsonFence);
    assert RemoveAll(Fence, JsonFence) == Fence by {
      assert !(JsonFence <= Fence);
      assert !(JsonFence <= Fence[1..]);
      assert !(JsonFence <= Fence[2..]);
    }
    RemoveAllKeepsPrefix(body, Fence, Fence);
    assert RemoveAll(Fence, Fence) == [] by { assert Fence[3..] == []; }
  }

  /** Why turning the parser's response into a course structure failed. The source has
      a single error branch that shows only the exception's message; telling the two
      causes apart, and keeping the rejected text in `Unparsable`, is this model's choice. */
  datatype ExtractError =
    | NoResponse                  // the completion call returned None
    | Unparsable(text: string)    // the decoder rejected the fence-stripped text

  /** app.py lines 138-144: given the response of the structure request (line 137), strip
      the fences and decode it. `decode` stands for `json.loads`, `None` meaning that it
      raised. A missing response makes `str.replace` raise, which lands in the same error
      branch. */
  function ExtractStructure<S>(response: Option<string>, decode: string -> Option<S>): (r: Result<S, ExtractError>)
    ensures response.None? ==> r == Err(NoResponse)
    ensures response.Some? && decode(StripFences(response.value)).Some? ==> r == Ok(decode(StripFences(response.value)).value)
    ensures response.Some? && decode(StripFences(response.value)).None? ==> r == Err(Unparsable(StripFences(response.value)))
  {
    match response
    case None => Err(NoResponse)
    case Some(text) =>
      var stripped := StripFences(text);
      match decode(stripped)
      case None => Err(Unparsable(stripped))
      case Some(structure) => Ok(structure)
  }

  /** A fenced response yields exactly what the unfenced payload yields. */
  lemma FencedResponseSameStructure<S>(body: string, decode: string -> Option<S>)
    requires '`' !in body
    ensures ExtractStructure(Some(JsonFence + body + Fence), decode) == ExtractStructure(Some(body), decode)
  {
    FencedPayload(body);
  }
}
