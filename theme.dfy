/**
 * The banner and message styling of the command-line interface
 * (cli/theme.py): what `get_banner` and the `format_*` helpers return, as
 * strings of rich markup.
 */
module Theme {
  import opened Text

  /**
   * The fixed text of a banner template around its two left-aligned fields,
   * `{model:<w}` and `{context:<w}`: before the model field, between the two,
   * after the context field.
   */
  datatype BannerText = BannerText(head: string, middle: string, tail: string)

  /** The texts of both templates. The functions and lemmas below take them as a parameter, so that proofs need not look inside them. */
  datatype BannerTexts = BannerTexts(full: BannerText, simple: BannerText)

  /** `BANNER_TEMPLATE` (for terminals at least 80 columns wide) and `BANNER_SIMPLE_TEMPLATE`. */
  const Templates := BannerTexts(
    BannerText(
      "\n╔═══════════════════════════════════════════════════════════════╗\n║                                                               ║\n║    ██████╗ ██████╗ ██████╗ ███████╗                           ║\n║   ██╔════╝██╔═══██╗██╔══██╗██╔════╝                           ║\n║   ██║     ██║   ██║██║  ██║█████╗                             ║\n║   ██║     ██║   ██║██║  ██║██╔══╝                             ║\n║   ╚██████╗╚██████╔╝██████╔╝███████╗                           ║\n║    ╚═════╝ ╚═════╝ ╚═════╝ ╚══════╝                           ║\n║                                                               ║\n║   ╔═╗ ╔═╗ ╔═╗ ╦ ╔═╗ ╔╦╗ ╔═╗ ╔╗╔ ╔╦╗                           ║\n║   ╠═╣ ╚═╗ ╚═╗ ║ ╚═╗  ║  ╠═╣ ║║║  ║                            ║\n║   ╩ ╩ ╚═╝ ╚═╝ ╩ ╚═╝  ╩  ╩ ╩ ╝╚╝  ╩                            ║\n║                                                               ║\n║   AI-Powered Python Coding Assistant                          ║\n║   Built for developers who demand excellence                  ║\n║                                                               ║\n║───────────────────────────────────────────────────────────────║\n║                                                               ║\n║   Model: ",
      "  ║\n║   Context: ",
      "  ║\n║                                                               ║\n║   Type your question or /help for commands.                   ║\n║   Type 'exit' to quit.                                        ║\n║                                                               ║\n╚═══════════════════════════════════════════════════════════════╝\n"),
    BannerText(
      "\n┌─────────────────────────────────────────────────┐\n│  CODE ASSISTANT                                 │\n│  AI-Powered Python Coding Assistant             │\n│─────────────────────────────────────────────────│\n│  Model: ",
      "                             │\n│  Context: ",
      "                         │\n│                                                 │\n│  Type your question or /help. 'exit' to quit.   │\n└─────────────────────────────────────────────────┘\n"))

  /** The field widths of the full template. */
  const FullModelWidth := 51
  const FullContextWidth := 49

  /** The field widths of the simple template. */
  const SimpleModelWidth := 39
  const SimpleContextWidth := 37

  function Max(a: nat, b: nat): nat { if a < b then b else a }

  /** A model name longer than 50 characters keeps its first 47, followed by "...". */
  function ModelDisplay(model: string): (r: string)
    ensures |r| <= 50
    ensures |model| <= 50 ==> r == model
    ensures |model| > 50 ==> |r| == 50 && r[..47] == model[..47] && r[47..] == "..."
  {
    if |model| <= 50 then model else model[..47] + "..."
  }

  /** A context directory longer than 48 characters keeps "..." and its last 45. */
  function ContextDisplay(context: string): (r: string)
    ensures |r| <= 48
    ensures |context| <= 48 ==> r == context
    ensures |context| > 48 ==> |r| == 48 && r[..3] == "..." && r[3..] == context[|context| - 45..]
  {
    if |context| <= 48 then context else "..." + context[|context| - 45..]
  }

  /** Truncating a display again changes nothing. */
  lemma DisplaysIdempotent(model: string, context: string)
    ensures ModelDisplay(ModelDisplay(model)) == ModelDisplay(model)
    ensures ContextDisplay(ContextDisplay(context)) == ContextDisplay(context)
  {
  }

  /** `template.format(model=..., context=...)`: each field padded with spaces to its width, never cut. */
  function Fill(t: BannerText, modelWidth: nat, contextWidth: nat, model: string, context: string): (r: string)
    ensures |r| == |t.head| + Max(|model|, modelWidth) + |t.middle| + Max(|context|, contextWidth) + |t.tail|
  {
    t.head + PadRight(model, modelWidth) + t.middle + PadRight(context, contextWidth) + t.tail
  }

  /**
   * The filled template is the template's text with the model and the context
   * at the start of their fields, only spaces after each up to its width.
   */
  lemma {:induction false} FillFields(t: BannerText, modelWidth: nat, contextWidth: nat, model: string, context: string)
    ensures var r := Fill(t, modelWidth, contextWidth, model, context);
            var m := |t.head|;
            var c := m + Max(|model|, modelWidth) + |t.middle|;
            && r[..m] == t.head
            && r[m..m + |model|] == model
            && AllBlank(r[m + |model|..m + Max(|model|, modelWidth)])
            && r[m + Max(|model|, modelWidth)..c] == t.middle
            && r[c..c + |context|] == context
            && AllBlank(r[c + |context|..c + Max(|context|, contextWidth)])
            && r[c + Max(|context|, contextWidth)..] == t.tail
  {
    var pm := PadRight(model, modelWidth);
    var pc := PadRight(context, contextWidth);
    var r := Fill(t, modelWidth, contextWidth, model, context);
    var m := |t.head|;
    var c := m + |pm| + |t.middle|;
    assert r == t.head + pm + t.middle + pc + t.tail;
    assert r[..m] == t.head;
    assert r[m..m + |pm|] == pm;
    assert r[m + |model|..m + |pm|] == pm[|model|..];
    assert r[m..m + |model|] == pm[..|model|];
    assert r[m + |pm|..c] == t.middle;
    assert r[c..c + |pc|] == pc;
    assert r[c..c + |context|] == pc[..|context|];
    assert r[c + |context|..c + |pc|] == pc[|context|..];
    assert r[c + |pc|..] == t.tail;
  }

  /** `get_banner` for given template texts: the truncated displays in the full template from 80 columns on, else in the simple one. */
  function Banner(texts: BannerTexts, width: int, model: string, context: string): string
  {
    if width >= 80 then Fill(texts.full, FullModelWidth, FullContextWidth, ModelDisplay(model), ContextDisplay(context))
    else Fill(texts.simple, SimpleModelWidth, SimpleContextWidth, ModelDisplay(model), ContextDisplay(context))
  }

  /** `get_banner` with the program's own templates. */
  function GetBanner(width: int, model: string, context: string): string
  {
    Banner(Templates, width, model, context)
  }

  /**
   * The full banner never overflows its fields: whatever the model and the
   * context, it is the full template with fields of exactly 51 and 49
   * characters. The simple banner keeps its width exactly when the displays
   * fit 39 and 37 characters.
   */
  lemma BannerWidth(texts: BannerTexts, width: int, model: string, context: string)
    ensures var t := if width >= 80 then texts.full else texts.simple;
            var fixed := |t.head| + |t.middle| + |t.tail|;
            && (width >= 80 ==> |Banner(texts, width, model, context)| == fixed + FullModelWidth + FullContextWidth)
            && (width < 80 ==>
                  (|Banner(texts, width, model, context)| == fixed + SimpleModelWidth + SimpleContextWidth
                   <==> |ModelDisplay(model)| <= SimpleModelWidth && |ContextDisplay(context)| <= SimpleContextWidth))
  {
  }

  /** `r` shows template `t`'s head, then `md` at the start of a field of width `w`, then `cd` after the middle text. */
  predicate ShowsDisplays(r: string, t: BannerText, w: nat, md: string, cd: string)
  {
    var c := |t.head| + Max(|md|, w) + |t.middle|;
    && c + |cd| <= |r|
    && r[..|t.head|] == t.head
    && r[|t.head|..|t.head| + |md|] == md
    && r[c..c + |cd|] == cd
  }

  /** Where the banner shows the model and the context: at the start of their fields, in the template chosen by the width. */
  lemma BannerShowsDisplays(texts: BannerTexts, width: int, model: string, context: string)
    ensures width >= 80 ==> ShowsDisplays(Banner(texts, width, model, context), texts.full, FullModelWidth,
                                          ModelDisplay(model), ContextDisplay(context))
    ensures width < 80 ==> ShowsDisplays(Banner(texts, width, model, context), texts.simple, SimpleModelWidth,
                                         ModelDisplay(model), ContextDisplay(context))
  {
    var md := ModelDisplay(model);
    var cd := ContextDisplay(context);
    if width >= 80 {
      FillFields(texts.full, FullModelWidth, FullContextWidth, md, cd);
    } else {
      FillFields(texts.simple, SimpleModelWidth, SimpleContextWidth, md, cd);
    }
  }

  const UserLabel := "[user]You:[/user] "

  /** `format_user_message`: the user label, then the message unchanged. */
  function FormatUserMessage(message: string): (r: string)
    ensures UserLabel <= r && r[|UserLabel|..] == message
  {
    UserLabel + message
  }

  const AssistantLabel := "[assistant]Assistant:[/assistant]"

  /** `format_assistant_message`: the assistant label; the message itself is never shown. */
  function FormatAssistantMessage(message: string): (r: string)
    ensures r == AssistantLabel
  {
    AssistantLabel
  }

  /** The icon of a system message type. */
  function Icon(kind: string): (r: char)
    ensures r == '•' <==> kind !in ["success", "error", "warning", "info"]
  {
    match kind
    case "success" => '✓'
    case "error" => '✗'
    case "warning" => '!'
    case "info" => 'ℹ'
    case _ => '•'
  }

  /** `format_system_message`: the message after its icon, inside the type's markup tag. */
  function FormatSystemMessage(message: string, kind: string): (r: string)
    ensures |r| == 2 * |kind| + |message| + 7
    ensures r[..|kind| + 2] == "[" + kind + "]"
    ensures r[|kind| + 2] == Icon(kind) && r[|kind| + 3] == ' '
    ensures r[|kind| + 4..|kind| + 4 + |message|] == message
    ensures r[|kind| + 4 + |message|..] == "[/" + kind + "]"
  {
    var open := "[" + kind + "]";
    var body := [Icon(kind), ' '] + message;
    var close := "[/" + kind + "]";
    assert (open + body + close)[..|open|] == open;
    assert (open + body + close)[|open|..|open| + |body|] == body;
    assert (open + body + close)[|open| + |body|..] == close;
    assert body[2..] == message;
    open + body + close
  }

  /** `format_code_block`: the code inside the `code` markup tag. */
  function FormatCodeBlock(code: string): (r: string)
    ensures |r| == |code| + 13
    ensures "[code]" <= r && r[6..|r| - 7] == code && r[|r| - 7..] == "[/code]"
  {
    var r := "[code]" + code + "[/code]";
    assert r[6..|r| - 7] == code;
    r
  }
}
