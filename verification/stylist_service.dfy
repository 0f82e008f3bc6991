/** The stylist service (services/geminiService.ts): the instruction text
    built from a catalogue snapshot when a chat is created, and the mapping
    from the outcome of one chat call to the text shown to the user. The
    chat itself is remote and is represented only by its outcome. */
module StylistService {
  import opened Types
  import opened Text

  // ---------------------------------------------------------------------
  // The catalogue context
  // ---------------------------------------------------------------------

  /** One catalogue line: `- {name} ({brand}): ${price}, Category: {category}`. */
  function ProductLine(p: Product): (line: string)
    ensures |line| >= 2 && line[..2] == "- "
    ensures '\n' !in p.name && '\n' !in p.brand && '\n' !in p.category ==> '\n' !in line
  {
    DecimalHasNoNewline(p.price);
    "- " + p.name + " (" + p.brand + "): $" + IntToDecimal(p.price) + ", Category: " + p.category
  }

  function ProductLines(products: seq<Product>): (lines: seq<string>)
    ensures |lines| == |products|
    ensures forall i :: 0 <= i < |products| ==> lines[i] == ProductLine(products[i])
  {
    seq(|products|, i requires 0 <= i < |products| => ProductLine(products[i]))
  }

  /** `productContext`: the lines joined by newlines. */
  function ProductContext(products: seq<Product>): (context: string)
    ensures context == "" <==> |products| == 0
    ensures |products| > 0 ==> |context| >= 2 && context[..2] == "- "
  {
    var lines := ProductLines(products);
    var context := Join(lines, "\n");
    assert |products| > 0 ==> |context| >= 2 && context[..2] == "- " by {
      if |products| > 0 {
        JoinStartsWithFirst(lines, "\n");
        assert context[..2] == context[..|lines[0]|][..2];
      }
    }
    context
  }

  /** No product in the snapshot has a line break in its text fields. */
  predicate SingleLineFields(products: seq<Product>) {
    forall i :: 0 <= i < |products| ==>
      '\n' !in products[i].name && '\n' !in products[i].brand && '\n' !in products[i].category
  }

  lemma DecimalHasNoNewline(n: int)
    ensures '\n' !in IntToDecimal(n)
  {
    var s := IntToDecimal(n);
    if n < 0 {
      assert s == "-" + NatToDecimal(-n);
    }
  }

  lemma ProductLineHasNoNewline(p: Product)
    requires '\n' !in p.name && '\n' !in p.brand && '\n' !in p.category
    ensures '\n' !in ProductLine(p)
  {
    DecimalHasNoNewline(p.price);
  }

  /** An empty snapshot gives an empty context; otherwise splitting the
      context at its line breaks yields exactly one line per product, in
      snapshot order (so there is no trailing line break). */
  lemma ContextHasOneLinePerProduct(products: seq<Product>)
    requires SingleLineFields(products)
    ensures |products| == 0 ==> ProductContext(products) == ""
    ensures |products| > 0 ==> Split(ProductContext(products), '\n') == ProductLines(products)
    ensures |products| > 0 ==> |Split(ProductContext(products), '\n')| == |products|
  {
    if |products| > 0 {
      var lines := ProductLines(products);
      forall k | 0 <= k < |lines| ensures '\n' !in lines[k] {
        ProductLineHasNoNewline(products[k]);
      }
      SplitJoin(lines, '\n');
    }
  }

  /** The price in a product line reads back as the product's price: the
      line ends with the price digits followed by the category suffix. */
  lemma ProductLinePrice(p: Product)
    ensures
      var prefix := "- " + p.name + " (" + p.brand + "): $";
      var suffix := ", Category: " + p.category;
      var line := ProductLine(p);
      && |prefix| + |suffix| <= |line|
      && line[..|prefix|] == prefix
      && line[|line| - |suffix|..] == suffix
      && ParseInt(line[|prefix|..|line| - |suffix|]) == p.price
  {
    var prefix := "- " + p.name + " (" + p.brand + "): $";
    var suffix := ", Category: " + p.category;
    var digits := IntToDecimal(p.price);
    var line := ProductLine(p);
    assert line == prefix + digits + suffix;
    assert line[|prefix|..|line| - |suffix|] == digits;
    IntToDecimalRoundTrip(p.price);
  }

  // ---------------------------------------------------------------------
  // Creating a chat
  // ---------------------------------------------------------------------

  const ModelName: string := "gemini-2.5-flash"

  /** The instruction text up to the point where the context goes. */
  const InstructionHead: string :=
    "You are \"Vi\", the personal AI Stylist for Violet Essentials.\n"
    + "  \n"
    + "  Your goal is to help customers find products from our catalog.\n"
    + "  Be chic, helpful, and concise. Use emojis occasionally \U{1F457}\U{2728}.\n"
    + "  \n"
    + "  Here is the current product catalog available on the page:\n"
    + "  "

  /** The instruction text after the context. */
  const InstructionTail: string :=
    "\n"
    + "  \n"
    + "  Rules:\n"
    + "  1. Only recommend products from this list.\n"
    + "  2. If a user asks for something we don't have, politely suggest a similar category or item from the list.\n"
    + "  3. Keep responses short (under 50 words) unless describing a full outfit.\n"
    + "  4. Always mention the price when recommending an item.\n"
    + "  "

  function SystemInstruction(context: string): string {
    InstructionHead + context + InstructionTail
  }

  /** What a created chat is fixed to for its whole life. */
  datatype ChatConfig = ChatConfig(model: string, systemInstruction: string)

  /** `createStylistChat`: the configuration of the remote chat, built from
      the snapshot it is given. */
  function CreateStylistChat(products: seq<Product>): (chat: ChatConfig)
    ensures chat.model == ModelName
    ensures |chat.systemInstruction| == |InstructionHead| + |ProductContext(products)| + |InstructionTail|
    ensures chat.systemInstruction[|InstructionHead|..|InstructionHead| + |ProductContext(products)|] == ProductContext(products)
  {
    var context := ProductContext(products);
    var instruction := SystemInstruction(context);
    assert instruction[|InstructionHead|..|InstructionHead| + |context|] == context;
    ChatConfig(ModelName, instruction)
  }

  /** Different contexts give different instructions: the instruction
      determines the snapshot's context. */
  lemma InstructionDeterminesContext(c1: string, c2: string)
    requires SystemInstruction(c1) == SystemInstruction(c2)
    ensures c1 == c2
  {
    var i1, i2 := SystemInstruction(c1), SystemInstruction(c2);
    assert |c1| == |c2|;
    assert c1 == i1[|InstructionHead|..|InstructionHead| + |c1|];
    assert c2 == i2[|InstructionHead|..|InstructionHead| + |c2|];
  }

  // ---------------------------------------------------------------------
  // One chat call
  // ---------------------------------------------------------------------

  /** How a chat call ends: a reply whose text may be missing, or a failure
      of any kind. */
  datatype CallOutcome = Replied(text: Option<string>) | Failed

  const EmptyReplyText: string := "I'm having a fashion moment... let me think again."

  const FailureText: string :=
    "I'm having trouble connecting to the fashion mainframe right now. Please try again later."

  /** `sendMessageToStylist` after the call has settled: it never fails. */
  function ReplyText(outcome: CallOutcome): (text: string)
    ensures text != ""
    ensures outcome.Replied? && outcome.text.Some? && outcome.text.value != "" ==> text == outcome.text.value
    ensures outcome.Replied? && (outcome.text.None? || outcome.text.value == "") ==> text == EmptyReplyText
    ensures outcome.Failed? ==> text == FailureText
  {
    match outcome
    case Failed => FailureText
    case Replied(t) => if t.Some? && t.value != "" then t.value else EmptyReplyText
  }

  /** The user sees the model's own words exactly when the call returned
      some text, unless that text happens to equal one of the fallbacks. */
  lemma ReplyIsModelTextIff(outcome: CallOutcome)
    requires outcome.Replied? && outcome.text.Some? ==> outcome.text.value != EmptyReplyText && outcome.text.value != FailureText
    ensures (ReplyText(outcome) != EmptyReplyText && ReplyText(outcome) != FailureText)
      <==> (outcome.Replied? && outcome.text.Some? && outcome.text.value != "")
  {
  }
}
