/** The prompt composed for an improvement request. Kept apart from the page because its
    long fixed text would otherwise weigh on every proof about the page. */
module ImprovementText {
  import opened Text
  import opened CodeModel

  const ImprovePreamble := "You are an expert web developer AI. The user wants to improve their website.\n\nFirst, explain how you will improve the code based on this feedback: \""
  const ImproveLastRequest := "\".\n\nHere was their last request: \""
  const ImprovePrevious := "\".\n\nHere is the previous code you must improve:\nHTML:\n\n"
  const ImproveCss := "\n\nCSS:\n\n"
  const ImproveJs := "\n\nJS:\n\n"
  const ImproveFormat := "\n\nAfter your explanation, reply in this exact format (do not skip any section, even if unchanged):\nEXPLANATION: [Your explanation here]\nHTML: [Complete HTML code]\nCSS: [Complete CSS code]\nJS: [Complete JavaScript code]"

  /** The prompt sent for an improvement: the feedback, the last request and the previous
      code, followed by the required reply format. */
  function ImprovementPrompt(feedback: string, lastPrompt: string, prev: Code): string {
    ImprovePreamble + feedback + ImproveLastRequest + lastPrompt + ImprovePrevious
      + prev.html + ImproveCss + prev.css + ImproveJs + prev.js + ImproveFormat
  }

  /** The feedback, the last request and the three sections each sit in the prompt at the
      offset the fixed text before them determines, and the prompt ends with the reply
      format; so each can be read back from the prompt. */
  lemma {:induction false} PromptLayout(feedback: string, lastPrompt: string, prev: Code)
    ensures var r := ImprovementPrompt(feedback, lastPrompt, prev);
      var p1 := |ImprovePreamble|;
      var p2 := p1 + |feedback| + |ImproveLastRequest|;
      var p3 := p2 + |lastPrompt| + |ImprovePrevious|;
      var p4 := p3 + |prev.html| + |ImproveCss|;
      var p5 := p4 + |prev.css| + |ImproveJs|;
      && At(r, 0, ImprovePreamble)
      && At(r, p1, feedback)
      && At(r, p2, lastPrompt)
      && At(r, p3, prev.html)
      && At(r, p4, prev.css)
      && At(r, p5, prev.js)
      && At(r, p5 + |prev.js|, ImproveFormat)
  {
    Spliced(ImprovePreamble, feedback, ImproveLastRequest, lastPrompt, ImprovePrevious,
      prev.html, ImproveCss, prev.css, ImproveJs, prev.js, ImproveFormat);
  }

  /** Eleven pieces joined in order, alternating fixed text and interpolated text: where the
      first piece, every interpolated piece and the last piece sit in the result. */
  lemma {:induction false} Spliced(a: string, v: string, b: string, w: string, c: string,
                                   x: string, d: string, y: string, e: string, z: string, f: string)
    ensures var r := a + v + b + w + c + x + d + y + e + z + f;
      && At(r, 0, a)
      && At(r, |a|, v)
      && At(r, |a + v + b|, w)
      && At(r, |a + v + b + w + c|, x)
      && At(r, |a + v + b + w + c + x + d|, y)
      && At(r, |a + v + b + w + c + x + d + y + e|, z)
      && At(r, |a + v + b + w + c + x + d + y + e + z|, f)
  {
    var p1 := a + v;
    var p2 := p1 + b;
    var p3 := p2 + w;
    var p4 := p3 + c;
    var p5 := p4 + x;
    var p6 := p5 + d;
    var p7 := p6 + y;
    var p8 := p7 + e;
    var p9 := p8 + z;
    var r := p9 + f;
    forall k | 0 <= k < |a| ensures r[k] == a[k] {
      assert r[k] == p9[k] == p8[k] == p7[k] == p6[k] == p5[k] == p4[k] == p3[k] == p2[k] == p1[k];
    }
    forall k | 0 <= k < |v| ensures r[|a| + k] == v[k] {
      assert r[|a| + k] == p9[|a| + k] == p8[|a| + k] == p7[|a| + k] == p6[|a| + k]
        == p5[|a| + k] == p4[|a| + k] == p3[|a| + k] == p2[|a| + k] == p1[|a| + k];
    }
    forall k | 0 <= k < |w| ensures r[|p2| + k] == w[k] {
      assert r[|p2| + k] == p9[|p2| + k] == p8[|p2| + k] == p7[|p2| + k] == p6[|p2| + k]
        == p5[|p2| + k] == p4[|p2| + k] == p3[|p2| + k];
    }
    forall k | 0 <= k < |x| ensures r[|p4| + k] == x[k] {
      assert r[|p4| + k] == p9[|p4| + k] == p8[|p4| + k] == p7[|p4| + k] == p6[|p4| + k]
        == p5[|p4| + k];
    }
    forall k | 0 <= k < |y| ensures r[|p6| + k] == y[k] {
      assert r[|p6| + k] == p9[|p6| + k] == p8[|p6| + k] == p7[|p6| + k];
    }
    forall k | 0 <= k < |z| ensures r[|p8| + k] == z[k] {
      assert r[|p8| + k] == p9[|p8| + k];
    }
    AtEnd(p9, f);
  }
}
