/**
 * A bounded, line-break escaping rendering of a character buffer for log
 * output: "[", the characters with each '\n' written as the two characters
 * '\' 'n', then "]", or "...]" when the buffer is cut short.
 */
module Dump {
  import opened Wrappers

  /** The default bound used by the dump helper. */
  const DefaultMaxSize: nat := 200

  /** The rendering of one character. */
  function Escape(c: char): (r: string)
    ensures '\n' !in r
    ensures c != '\n' ==> r == [c]
    ensures c == '\n' ==> r == ['\\', 'n']
  {
    if c == '\n' then "\\n" else [c]
  }

  /** Every character rendered, in order. */
  function Render(s: string): string
  {
    if |s| == 0 then "" else Render(s[..|s| - 1]) + Escape(s[|s| - 1])
  }

  /** The rendering never holds a raw line break. */
  lemma {:induction false} RenderHasNoEol(s: string)
    ensures '\n' !in Render(s)
  {
    if |s| > 0 {
      RenderHasNoEol(s[..|s| - 1]);
    }
  }

  /** The rendering is at least as long as the text, one extra character per line break. */
  lemma {:induction false} RenderLength(s: string)
    ensures |Render(s)| >= |s|
    ensures '\n' !in s ==> Render(s) == s
  {
    if |s| > 0 {
      var p := s[..|s| - 1];
      assert '\n' in p ==> '\n' in s;
      RenderLength(p);
      assert '\n' !in s ==> s == p + [s[|s| - 1]];
    }
  }

  /** A line break and a backslash followed by 'n' look the same once rendered. */
  lemma RenderNotInjective()
    ensures Render("\n") == Render("\\n")
  {
    assert "\\n"[..1] == "\\";
    assert "\n"[..0] == "";
    assert "\\"[..0] == "";
  }

  /**
   * dump_chars::print. A bound below 5 is an error; otherwise "[" then the
   * whole buffer and "]" when it fits in maxsize - 3 characters, or its
   * first maxsize - 3 characters and "...]" when it does not.
   */
  method Print(data: string, maxsize: nat) returns (r: Result<string, string>)
    ensures r.Failure? <==> maxsize < 5
    ensures r.Success? ==> |r.value| > 0 && r.value[0] == '['
    ensures r.Success? && |data| <= maxsize - 3 ==> r.value == "[" + Render(data) + "]"
    ensures r.Success? && |data| > maxsize - 3 ==> r.value == "[" + Render(data[..maxsize - 3]) + "...]"
    ensures r.Success? ==> '\n' !in r.value
  {
    if maxsize < 5 {
      return Failure("maxsize must be greater than 5");
    }
    var os := "[";
    var ii := 0;
    while ii < |data|
      invariant ii <= |data| && ii <= maxsize - 3
      invariant os == "[" + Render(data[..ii])
    {
      if ii >= maxsize - 3 {
        os := os + "...]";
        RenderHasNoEol(data[..ii]);
        return Success(os);
      }
      var ch := data[ii];
      if ch == '\n' {
        os := os + "\\n";
      } else {
        os := os + [ch];
      }
      assert data[..ii + 1][..ii] == data[..ii];
      ii := ii + 1;
    }
    os := os + "]";
    assert data[..ii] == data;
    RenderHasNoEol(data);
    return Success(os);
  }

  /** dump(v): print with the default bound of 200 characters. */
  method DumpDefault(data: string) returns (r: string)
    ensures |data| <= DefaultMaxSize - 3 ==> r == "[" + Render(data) + "]"
    ensures |data| > DefaultMaxSize - 3 ==> r == "[" + Render(data[..DefaultMaxSize - 3]) + "...]"
  {
    var res := Print(data, DefaultMaxSize);
    r := res.value;
  }
}
