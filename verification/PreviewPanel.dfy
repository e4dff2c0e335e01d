/** The preview panel's document synthesis (`runCode`): the document written
    into the sandboxed preview frame for the editor's code and language.
    HTML is written as it is; JavaScript is wrapped in a page that mirrors
    `console.log` and `console.error` into the page; CSS is put into a
    `<style>` element of a sample page; any other language is shown as
    text with `<` and `>` escaped. The template texts below are the
    literal parts of the source's template strings, whitespace included. */
module PreviewPanel {
  import opened Options
  import opened Strings

  /** The JavaScript page up to the `try` block of its script, which
      mirrors `console.log` and `console.error` into the page. */
  const JsPreamble: string := @"
          <!DOCTYPE html>
          <html>
            <head>
              <meta charset=""utf-8"">
              <title>JavaScript Preview</title>
            </head>
            <body>
              <div id=""output""></div>
              <script>
                // Override console methods
                const output = document.getElementById('output');
                const originalConsole = console;
                console = {
                  ...originalConsole,
                  log: function(...args) {
                    originalConsole.log(...args);
                    const el = document.createElement('div');
                    el.textContent = args.map(arg => 
                      typeof arg === 'object' ? JSON.stringify(arg) : String(arg)
                    ).join(' ');
                    output.appendChild(el);
                  },
                  error: function(...args) {
                    originalConsole.error(...args);
                    const el = document.createElement('div');
                    el.style.color = 'red';
                    el.textContent = args.map(arg => 
                      typeof arg === 'object' ? JSON.stringify(arg) : String(arg)
                    ).join(' ');
                    output.appendChild(el);
                  }
                };
                
                "

  /** The opening of the `try` block the code is inserted into. */
  const TryOpen: string := "try {\n                  "

  /** The end of the `try` block and the start of its `catch` clause. */
  const CatchOpen: string := "\n                } catch (err) {"

  /** The JavaScript page after the `catch` clause opens. */
  const JsPostamble: string := @"
                  console.error(err.message);
                }
              </script>
            </body>
          </html>
        "

  const JsHead: string := JsPreamble + TryOpen
  const JsTail: string := CatchOpen + JsPostamble

  /** The CSS sample page up to its `<style>` element. */
  const CssPreamble: string := @"
          <!DOCTYPE html>
          <html>
            <head>
              <meta charset=""utf-8"">
              <title>CSS Preview</title>
              "

  /** The CSS sample page after the style sheet: the sample body. */
  const CssPostamble: string := @"
            </head>
            <body>
              <div class=""example"">Example Div</div>
              <p>Example paragraph with <a href=""#"">link</a></p>
              <button>Example Button</button>
            </body>
          </html>
        "

  const CssHead: string := CssPreamble + "<style>"
  const CssTail: string := "</style>" + CssPostamble

  /** The fallback page up to its `<h3>` heading. */
  const FallbackTop: string := @"
          <!DOCTYPE html>
          <html>
            <head>
              <meta charset=""utf-8"">
              <title>Preview</title>
            </head>
            <body>
              <div style=""padding: 20px; font-family: sans-serif;"">
                <h3>"

  /** Between the heading and the escaped code: the opening `<pre>` tag. */
  const FallbackPreOpen: string := @"</h3>
                <pre style=""background: #f5f5f5; padding: 15px; border-radius: 4px; overflow: auto;"">"

  /** Between the escaped code and the notice: the closing `</pre>` tag. */
  const FallbackPreClose: string := @"</pre>
                <p style=""color: #666;"">"

  /** The fallback page after the notice. */
  const FallbackBottom: string := @"</p>
              </div>
            </body>
          </html>
        "

  // ---------------------------------------------------------------------
  // Escaping for the fallback page

  /** `s.replace(/c/g, replacement)`: every occurrence of the character `c` is
      replaced by `replacement`. */
  function ReplaceChar(s: string, c: char, replacement: string): string
  {
    if s == [] then [] else (if s[0] == c then replacement else [s[0]]) + ReplaceChar(s[1..], c, replacement)
  }

  /** What the fallback page shows for the code:
      `code.replace(/</g, '&lt;').replace(/>/g, '&gt;')`. */
  function Escape(code: string): string
  {
    ReplaceChar(ReplaceChar(code, '<', "&lt;"), '>', "&gt;")
  }

  /** The reference escaping, one character at a time. */
  function EscapeChar(c: char): string
  {
    if c == '<' then "&lt;" else if c == '>' then "&gt;" else [c]
  }

  function EscapeEach(s: string): string
  {
    if s == [] then [] else EscapeChar(s[0]) + EscapeEach(s[1..])
  }

  /** The number of angle brackets in `s`. */
  function Brackets(s: string): nat
  {
    if s == [] then 0 else (if s[0] == '<' || s[0] == '>' then 1 else 0) + Brackets(s[1..])
  }

  lemma {:induction false} ReplaceCharAppend(s: string, t: string, c: char, replacement: string)
    ensures ReplaceChar(s + t, c, replacement) == ReplaceChar(s, c, replacement) + ReplaceChar(t, c, replacement)
    decreases |s|
  {
    if s == [] {
      assert s + t == t;
    } else {
      assert (s + t)[1..] == s[1..] + t;
      ReplaceCharAppend(s[1..], t, c, replacement);
    }
  }

  lemma {:induction false} ReplaceCharAbsent(s: string, c: char, replacement: string)
    requires c !in s
    ensures ReplaceChar(s, c, replacement) == s
    decreases |s|
  {
    if s != [] {
      ReplaceCharAbsent(s[1..], c, replacement);
    }
  }

  /** The two whole-string passes escape each character on its own: the
      `&gt;` pass never touches the `&lt;` the first pass inserted. */
  lemma {:induction false} EscapeIsPerChar(s: string)
    ensures Escape(s) == EscapeEach(s)
    decreases |s|
  {
    if s != [] {
      var head := if s[0] == '<' then "&lt;" else [s[0]];
      assert ReplaceChar(s, '<', "&lt;") == head + ReplaceChar(s[1..], '<', "&lt;");
      ReplaceCharAppend(head, ReplaceChar(s[1..], '<', "&lt;"), '>', "&gt;");
      if s[0] == '<' {
        ReplaceCharAbsent("&lt;", '>', "&gt;");
      } else {
        assert ReplaceChar([s[0]], '>', "&gt;") == EscapeChar(s[0]) by {
          assert [s[0]][1..] == [];
        }
      }
      EscapeIsPerChar(s[1..]);
    }
  }

  /** The escaped code holds no angle bracket, so it cannot open or close
      an element of the page; each bracket grows by three characters. */
  lemma {:induction false} EscapeEachShape(s: string)
    ensures '<' !in EscapeEach(s) && '>' !in EscapeEach(s)
    ensures |EscapeEach(s)| == |s| + 3 * Brackets(s)
    decreases |s|
  {
    if s != [] {
      EscapeEachShape(s[1..]);
      assert '<' !in EscapeChar(s[0]) && '>' !in EscapeChar(s[0]);
    }
  }

  lemma EscapeShape(s: string)
    ensures '<' !in Escape(s) && '>' !in Escape(s)
    ensures |Escape(s)| == |s| + 3 * Brackets(s)
  {
    EscapeIsPerChar(s);
    EscapeEachShape(s);
  }

  /** Code without angle brackets is shown unchanged. */
  lemma EscapeKeepsPlainText(s: string)
    requires '<' !in s && '>' !in s
    ensures Escape(s) == s
  {
    ReplaceCharAbsent(s, '<', "&lt;");
    ReplaceCharAbsent(s, '>', "&gt;");
  }

  /** Decodes the two references `Escape` inserts: `&lt;` and `&gt;`
      become the brackets again; every other character, `&` included, is
      kept as it is. */
  function Unescape(s: string): string
  {
    if |s| >= 4 && s[..4] == "&lt;" then "<" + Unescape(s[4..])
    else if |s| >= 4 && s[..4] == "&gt;" then ">" + Unescape(s[4..])
    else if s == [] then []
    else [s[0]] + Unescape(s[1..])
  }

  /** Decoding the escaped form of code without `&` gives back the code. */
  lemma {:induction false} UnescapeEscapeEach(s: string)
    requires '&' !in s
    ensures Unescape(EscapeEach(s)) == s
    decreases |s|
  {
    if s != [] {
      var rest := EscapeEach(s[1..]);
      UnescapeEscapeEach(s[1..]);
      var e := EscapeChar(s[0]) + rest;
      if s[0] == '<' || s[0] == '>' {
        assert e[..4] == EscapeChar(s[0]) && e[4..] == rest;
      } else {
        assert e[0] == s[0] && e[1..] == rest;
      }
    }
  }

  lemma UnescapeEscape(s: string)
    requires '&' !in s
    ensures Unescape(Escape(s)) == s
  {
    EscapeIsPerChar(s);
    UnescapeEscapeEach(s);
  }

  /** `&` is not escaped, so code holding the text `&lt;` is shown as `<`,
      the same as code holding `<`. */
  lemma EscapeConflatesEntity()
    ensures Escape("<") == Escape("&lt;") == "&lt;"
    ensures Unescape(Escape("&lt;")) == "<"
  {
    EscapeIsPerChar("<");
    EscapeIsPerChar("&lt;");
    assert EscapeEach("&lt;") == "&lt;" by {
      assert "&lt;"[1..] == "lt;" && "lt;"[1..] == "t;" && "t;"[1..] == ";" && ";"[1..] == [];
    }
    assert Unescape("&lt;") == "<" by {
      assert "&lt;"[..4] == "&lt;" && "&lt;"[4..] == [];
    }
  }

  // ---------------------------------------------------------------------
  // The document

  /** Which branch of `runCode` a language takes: exact, case-sensitive
      comparison with `===`. */
  datatype PreviewKind = Html | JavaScript | Css | Other

  function KindOf(language: string): PreviewKind
  {
    if language == "html" then Html
    else if language == "javascript" then JavaScript
    else if language == "css" then Css
    else Other
  }

  /** The fallback page's heading text. */
  function CodeLabel(language: string): string
  {
    "Code (" + language + "):"
  }

  /** The fallback page's notice. */
  function NotAvailable(language: string): string
  {
    "Preview not available for " + language
  }

  /** The document `runCode` writes into the frame. */
  function BuildDocument(code: string, language: string): string
  {
    match KindOf(language)
    case Html => code
    case JavaScript => JsHead + code + JsTail
    case Css => CssHead + code + CssTail
    case Other => FallbackHead(language) + Escape(code) + FallbackTail(language)
  }

  /** The fallback page before the escaped code: the heading and the
      opening `<pre>` tag. */
  function FallbackHead(language: string): string
  {
    FallbackTop + CodeLabel(language) + FallbackPreOpen
  }

  /** The fallback page after the escaped code: the closing `</pre>` tag and
      the notice. */
  function FallbackTail(language: string): string
  {
    FallbackPreClose + NotAvailable(language) + FallbackBottom
  }

  /** What sits between `head` and `tail` in `doc`, if `doc` is framed by
      them. */
  function Unwrap(doc: string, head: string, tail: string): (r: Option<string>)
    ensures r.Some? ==> doc == head + r.value + tail
  {
    if |head| + |tail| <= |doc| && doc[..|head|] == head && doc[|doc| - |tail|..] == tail then
      var body := doc[|head|..|doc| - |tail|];
      assert doc == doc[..|head|] + body + doc[|doc| - |tail|..];
      Some(body)
    else
      None
  }

  lemma UnwrapWrapped(head: string, body: string, tail: string)
    ensures Unwrap(head + body + tail, head, tail) == Some(body)
  {
    var doc := head + body + tail;
    assert doc[..|head|] == head;
    assert doc[|doc| - |tail|..] == tail;
    assert doc[|head|..|doc| - |tail|] == body;
  }

  /** The framing of each kind of page: what comes before and after the
      inserted text. */
  function FrameHead(language: string): string
  {
    match KindOf(language)
    case Html => ""
    case JavaScript => JsHead
    case Css => CssHead
    case Other => FallbackHead(language)
  }

  function FrameTail(language: string): string
  {
    match KindOf(language)
    case Html => ""
    case JavaScript => JsTail
    case Css => CssTail
    case Other => FallbackTail(language)
  }

  /** The code can be read back out of every document: HTML is the code
      itself, JavaScript and CSS pages hold it verbatim between their
      fixed head and tail, and the fallback page holds its escaped form,
      which has no angle brackets and which `Unescape`, decoding the two
      references `Escape` inserts, turns back into the code when the code
      has no `&`. */
  lemma DocumentHoldsCode(code: string, language: string)
    ensures KindOf(language) == Html ==> BuildDocument(code, language) == code
    ensures KindOf(language) in {JavaScript, Css} ==>
      Unwrap(BuildDocument(code, language), FrameHead(language), FrameTail(language)) == Some(code)
    ensures KindOf(language) == Other ==>
      && Unwrap(BuildDocument(code, language), FrameHead(language), FrameTail(language)) == Some(Escape(code))
      && '<' !in Escape(code) && '>' !in Escape(code)
      && ('&' !in code ==> Unescape(Escape(code)) == code)
  {
    match KindOf(language)
    case Html =>
    case JavaScript =>
      UnwrapWrapped(JsHead, code, JsTail);
    case Css =>
      UnwrapWrapped(CssHead, code, CssTail);
    case Other =>
      UnwrapWrapped(FrameHead(language), Escape(code), FrameTail(language));
      EscapeShape(code);
      if '&' !in code {
        UnescapeEscape(code);
      }
  }

  /** The JavaScript code is the body of the page script's `try` block,
      and the style sheet is the content of the sample page's `<style>`
      element. */
  lemma CodeSitsInTryAndStyle(code: string, language: string)
    ensures KindOf(language) == JavaScript ==>
      BuildDocument(code, language) == JsPreamble + TryOpen + code + CatchOpen + JsPostamble
    ensures KindOf(language) == Css ==>
      BuildDocument(code, language) == CssPreamble + "<style>" + code + "</style>" + CssPostamble
  {
    if KindOf(language) == JavaScript {
      Regroup(JsPreamble, TryOpen, code, CatchOpen, JsPostamble);
    } else if KindOf(language) == Css {
      Regroup(CssPreamble, "<style>", code, "</style>", CssPostamble);
    }
  }

  lemma Regroup(a: string, b: string, c: string, d: string, e: string)
    ensures (a + b) + c + (d + e) == a + b + c + d + e
  {
  }

  /** The fallback page names the language twice: in the heading and in the
      notice. */
  lemma FallbackNamesLanguage(code: string, language: string)
    requires KindOf(language) == Other
    ensures Contains(BuildDocument(code, language), CodeLabel(language))
    ensures Contains(BuildDocument(code, language), NotAvailable(language))
  {
    OccursInFirst(FallbackTop, CodeLabel(language), FallbackPreOpen, Escape(code), FallbackTail(language));
    OccursInLast(FallbackHead(language), Escape(code), FallbackPreClose, NotAvailable(language), FallbackBottom);
  }

  lemma OccursInFirst(a: string, q: string, b: string, c: string, d: string)
    ensures OccursAt((a + q + b) + c + d, q, |a|)
  {
    var s := (a + q + b) + c + d;
    assert s[|a|..|a| + |q|] == q by {
      forall i | 0 <= i < |q| ensures s[|a| + i] == q[i] {
        assert s[|a| + i] == (a + q + b)[|a| + i];
      }
    }
  }

  lemma OccursInLast(a: string, b: string, c: string, q: string, d: string)
    ensures OccursAt(a + b + (c + q + d), q, |a| + |b| + |c|)
  {
    var s := a + b + (c + q + d);
    var k := |a| + |b| + |c|;
    assert s[k..k + |q|] == q by {
      forall i | 0 <= i < |q| ensures s[k + i] == q[i] {
        assert s[k + i] == (c + q + d)[|c| + i];
      }
    }
  }

  /** The language names are matched exactly: other spellings get the
      fallback page. */
  lemma KindOfIsCaseSensitive()
    ensures KindOf("HTML") == Other && KindOf("JavaScript") == Other
    ensures KindOf("CSS") == Other && KindOf("typescript") == Other
  {
  }
}
