/** The standalone page the live preview renders: the three code sections and the project
    title put into one HTML document. */
module PreviewDocument {
  import opened Text
  import opened CodeModel

  const DocType := "<!DOCTYPE html>"
  const DocEnd := "</html>"

  /** The document text up to the title, between the title and the CSS, and so on: every
      character of the template outside the four interpolations. */
  const DocHead := DocType + "\n<html lang=\"en\">\n<head>\n    <meta charset=\"UTF-8\">\n    <meta name=\"viewport\" content=\"width=device-width, initial-scale=1.0\">\n    <title>"
  const DocStyle := "</title>\n    <style>\n        "
  const DocBody := "\n    </style>\n</head>\n<body>\n    "
  const DocScript := "\n    <script>\n        "
  const DocTail := "\n    </script>\n</body>\n" + DocEnd

  /** The fixed part of the document, whatever the code and title. */
  function TemplateLength(): nat {
    |DocHead| + |DocStyle| + |DocBody| + |DocScript| + |DocTail|
  }

  /** The single document handed to the preview: the title in the head, the CSS inside the
      style element, the HTML in the body and the JS in a script element at its end. */
  function CombinedCode(title: string, code: Code): (r: string)
    ensures |r| == TemplateLength() + |title| + |code.css| + |code.html| + |code.js|
  {
    DocHead + title + DocStyle + code.css + DocBody + code.html + DocScript + code.js + DocTail
  }

  /** Each interpolated part sits at the offset the template fixes, so the title, CSS, HTML
      and JS can be read back from the document. */
  lemma {:induction false} CombinedCodeLayout(title: string, code: Code)
    ensures var r := CombinedCode(title, code);
      var css := |DocHead| + |title| + |DocStyle|;
      var html := css + |code.css| + |DocBody|;
      var js := html + |code.html| + |DocScript|;
      && At(r, |DocHead|, title)
      && At(r, css, code.css)
      && At(r, html, code.html)
      && At(r, js, code.js)
  {
    Interleave(DocHead, title, DocStyle, code.css, DocBody, code.html, DocScript, code.js, DocTail);
  }

  /** The document starts with the doctype and ends with the closing html tag. */
  lemma {:induction false} CombinedCodeFrame(title: string, code: Code)
    ensures var r := CombinedCode(title, code);
      At(r, 0, DocType) && At(r, |r| - |DocEnd|, DocEnd)
  {
    var r := CombinedCode(title, code);
    Interleave(DocHead, title, DocStyle, code.css, DocBody, code.html, DocScript, code.js, DocTail);
    HeadAt(r, DocType, DocHead[|DocType|..]);
    TailAt(r, DocTail[..|DocTail| - |DocEnd|], DocEnd);
  }

  lemma {:induction false} HeadAt(r: string, x: string, y: string)
    requires At(r, 0, x + y)
    ensures At(r, 0, x)
  {
    forall k | 0 <= k < |x| ensures r[k] == x[k] {
      assert r[k] == (x + y)[k];
    }
  }

  lemma {:induction false} TailAt(r: string, x: string, y: string)
    requires |x + y| <= |r| && At(r, |r| - |x + y|, x + y)
    ensures At(r, |r| - |y|, y)
  {
    forall k | 0 <= k < |y| ensures r[|r| - |y| + k] == y[k] {
      assert r[|r| - |x + y| + |x| + k] == (x + y)[|x| + k];
    }
  }

  /** Nine pieces joined in order: where the first, the four interpolated ones and the last
      one sit in the result. */
  lemma {:induction false} Interleave(h: string, t: string, a: string, x: string, b: string,
                                      y: string, c: string, z: string, e: string)
    ensures var r := h + t + a + x + b + y + c + z + e;
      && At(r, 0, h)
      && At(r, |h|, t)
      && At(r, |h| + |t| + |a|, x)
      && At(r, |h| + |t| + |a| + |x| + |b|, y)
      && At(r, |h| + |t| + |a| + |x| + |b| + |y| + |c|, z)
      && At(r, |r| - |e|, e)
  {
    var p0 := h;
    var p1 := p0 + t;
    var p2 := p1 + a;
    var p3 := p2 + x;
    var p4 := p3 + b;
    var p5 := p4 + y;
    var p6 := p5 + c;
    var p7 := p6 + z;
    var r := p7 + e;
    forall k | 0 <= k < |h| ensures r[k] == h[k] {
      assert r[k] == p7[k] == p6[k] == p5[k] == p4[k] == p3[k] == p2[k] == p1[k];
    }
    forall k | 0 <= k < |t| ensures r[|p0| + k] == t[k] {
      assert r[|p0| + k] == p7[|p0| + k] == p6[|p0| + k] == p5[|p0| + k]
        == p4[|p0| + k] == p3[|p0| + k] == p2[|p0| + k] == p1[|p0| + k];
    }
    forall k | 0 <= k < |x| ensures r[|p2| + k] == x[k] {
      assert r[|p2| + k] == p7[|p2| + k] == p6[|p2| + k] == p5[|p2| + k]
        == p4[|p2| + k] == p3[|p2| + k];
    }
    forall k | 0 <= k < |y| ensures r[|p4| + k] == y[k] {
      assert r[|p4| + k] == p7[|p4| + k] == p6[|p4| + k] == p5[|p4| + k];
    }
    forall k | 0 <= k < |z| ensures r[|p6| + k] == z[k] {
      assert r[|p6| + k] == p7[|p6| + k];
    }
    AtEnd(p7, e);
  }

  /** The document is never empty, so a preview that waits for a non-empty document never
      waits. */
  lemma {:induction false} CombinedCodeNonEmpty(title: string, code: Code)
    ensures CombinedCode(title, code) != ""
  {
    assert |CombinedCode(title, code)| >= |DocHead|;
  }
}
