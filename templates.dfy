/** The export snippets of `updateGradient`: the fixed text placed before
    and after the gradient string for each output format. */
module Templates {

  /** The fixed text around the gradient string in an export snippet. */
  datatype Template = Template(prefix: string, suffix: string)

  function CssTemplate(): Template
  {
    Template("background: ", ";")
  }

  function TailwindTemplate(): Template
  {
    Template("You'll need to add this "
             + "to your Tailwind config:\n\n"
             + "module.exports = {\n"
             + "  theme: {\n"
             + "    extend: {\n"
             + "      backgroundImage: {\n"
             + "        'my-gradient': '",
             "'\n"
             + "      }\n"
             + "    }\n"
             + "  }\n"
             + "}")
  }

  function ReactTemplate(): Template
  {
    Template("<div style={{ \n  background: '", "'\n}}></div>")
  }

  function JsTemplate(): Template
  {
    Template("element.style.background = '", "';")
  }

  /** The snippet chosen by the export-format tag; an unknown tag gets the CSS one. */
  function TemplateFor(format: string): (t: Template)
    ensures format != "tailwind" && format != "react" && format != "js" ==> t == CssTemplate()
    ensures format == "tailwind" ==> t == TailwindTemplate()
    ensures format == "react" ==> t == ReactTemplate()
    ensures format == "js" ==> t == JsTemplate()
  {
    if format == "css" then CssTemplate()
    else if format == "tailwind" then TailwindTemplate()
    else if format == "react" then ReactTemplate()
    else if format == "js" then JsTemplate()
    else CssTemplate()
  }

  /** A template filled with the gradient string `g`: the string sits
      between the template's prefix and suffix, which are left whole. */
  function Fill(t: Template, g: string): (r: string)
    ensures |r| == |t.prefix| + |g| + |t.suffix|
    ensures r[..|t.prefix|] == t.prefix
    ensures r[|t.prefix|..|t.prefix| + |g|] == g
    ensures r[|t.prefix| + |g|..] == t.suffix
  {
    t.prefix + g + t.suffix
  }

  /** The export text `updateGradient` writes for format tag `format`. */
  function ExportText(format: string, g: string): string
  {
    Fill(TemplateFor(format), g)
  }

  /** The `css` tag gives `background: G;`. */
  lemma ExportTextCss(g: string)
    ensures ExportText("css", g) == "background: " + g + ";"
  {
  }

  /** So does every tag the switch does not know. */
  lemma ExportTextUnknown(format: string, g: string)
    requires format != "css" && format != "tailwind" && format != "react" && format != "js"
    ensures ExportText(format, g) == "background: " + g + ";"
  {
  }

  /** The `js` tag gives `element.style.background = 'G';`. */
  lemma ExportTextJs(g: string)
    ensures ExportText("js", g) == "element.style.background = '" + g + "';"
  {
  }

  predicate NoOpenParen(s: string)
  {
    '(' !in s
  }

  lemma TailwindIntroNoParen()
    ensures NoOpenParen("You'll need to add this ")
    ensures NoOpenParen("to your Tailwind config:\n\n")
  {
  }

  lemma TailwindConfigNoParen()
    ensures NoOpenParen("module.exports = {\n")
    ensures NoOpenParen("  theme: {\n")
    ensures NoOpenParen("    extend: {\n")
  {
  }

  lemma TailwindKeyNoParen()
    ensures NoOpenParen("      backgroundImage: {\n")
    ensures NoOpenParen("        'my-gradient': '")
  {
  }

  lemma TailwindNoParen()
    ensures NoOpenParen(TailwindTemplate().prefix) && NoOpenParen(TailwindTemplate().suffix)
  {
    TailwindIntroNoParen();
    TailwindConfigNoParen();
    TailwindKeyNoParen();
    assert NoOpenParen("'\n" + "      }\n" + "    }\n" + "  }\n" + "}");
  }

  lemma ReactNoParen()
    ensures NoOpenParen(ReactTemplate().prefix) && NoOpenParen(ReactTemplate().suffix)
  {
  }

  lemma JsNoParen()
    ensures NoOpenParen(JsTemplate().prefix) && NoOpenParen(JsTemplate().suffix)
  {
  }

  lemma CssNoParen()
    ensures NoOpenParen(CssTemplate().prefix) && NoOpenParen(CssTemplate().suffix)
  {
  }

  /** No export snippet has an opening parenthesis of its own. */
  lemma TemplateNoParen(format: string)
    ensures NoOpenParen(TemplateFor(format).prefix) && NoOpenParen(TemplateFor(format).suffix)
  {
    TailwindNoParen();
    ReactNoParen();
    JsNoParen();
    CssNoParen();
  }
}
