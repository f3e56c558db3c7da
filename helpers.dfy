/** The utilities shared by the client and the servers: the fixed ports, the
    label helpers that cut a domain name into suffixes, and the text protocol
    the tiers answer in (a Python list printed with `str`, split back on commas). */
module Helpers {
  import opened Strings

  const LocalDnsServerPort: nat := 53
  const RootServerPort: nat := 9001
  const TldServerPort: nat := 9002
  const AuthoritativeServerPort: nat := 9003

  /** The three simulated server tiers the local resolver talks to. */
  datatype Tier = Root | Tld | Authoritative

  /** The loopback port each tier listens on. */
  function PortOf(tier: Tier): (port: nat)
    ensures port != LocalDnsServerPort
    ensures RootServerPort <= port <= AuthoritativeServerPort
  {
    match tier
    case Root => RootServerPort
    case Tld => TldServerPort
    case Authoritative => AuthoritativeServerPort
  }

  /** The tiers' ports are pairwise distinct, so a port names exactly one tier. */
  lemma PortOfInjective(a: Tier, b: Tier)
    ensures PortOf(a) == PortOf(b) ==> a == b
  {
  }

  // ---------------------------------------------------------------------------
  // Domain labels

  /** `splitInput`: the labels of a dotted name, left to right. */
  function SplitInput(userInput: string): (labels: seq<string>)
    ensures |labels| > 0
  {
    Split(userInput, '.')
  }

  /** There is one label more than there are dots, no label holds a dot, and
      joining the labels with dots gives the name back. */
  lemma SplitInputSpec(userInput: string)
    ensures |SplitInput(userInput)| == multiset(userInput)['.'] + 1
    ensures forall i :: 0 <= i < |SplitInput(userInput)| ==> '.' !in SplitInput(userInput)[i]
    ensures Join(SplitInput(userInput), '.') == userInput
  {
    JoinSplit(userInput, '.');
    SplitSpec(userInput, '.');
  }

  /** Each label followed by a dot, in order: `["example", "com"]` gives `"example.com."`. */
  function Dotted(labels: seq<string>): (dotted: string)
    decreases |labels|
  {
    if labels == [] then "" else labels[0] + "." + Dotted(labels[1..])
  }

  /** For a nonempty list, dotting every label is joining with dots plus a final dot. */
  lemma {:induction false} DottedIsJoinPlusDot(labels: seq<string>)
    requires |labels| > 0
    ensures Dotted(labels) == Join(labels, '.') + "."
    decreases |labels|
  {
    if |labels| > 1 {
      DottedIsJoinPlusDot(labels[1..]);
    }
  }

  /** `getInput`: the rightmost `numberOfWords` labels of the name, in their
      original order, each followed by a dot. The labels are put in an array,
      reversed in place, and the result is built by prepending one label at a time.
      Python raises an index error when more words are asked for than there are labels. */
  method GetInput(givenInput: string, numberOfWords: nat) returns (returningString: string)
    requires numberOfWords <= |SplitInput(givenInput)|
    ensures var labels := SplitInput(givenInput);
      returningString == Dotted(labels[|labels| - numberOfWords..])
    ensures numberOfWords == 0 ==> returningString == ""
    ensures var labels := SplitInput(givenInput);
      0 < numberOfWords ==> returningString == Join(labels[|labels| - numberOfWords..], '.') + "."
    ensures numberOfWords == |SplitInput(givenInput)| ==> returningString == givenInput + "."
  {
    var labels := SplitInput(givenInput);
    var result := new string[|labels|](i requires 0 <= i < |labels| => labels[i]);
    Reverse(result);
    returningString := "";
    for i := 0 to numberOfWords
      invariant returningString == Dotted(labels[|labels| - i..])
    {
      assert result[i] == labels[|labels| - 1 - i];
      assert labels[|labels| - (i + 1)..][1..] == labels[|labels| - i..];
      returningString := result[i] + "." + returningString;
    }
    if 0 < numberOfWords {
      DottedIsJoinPlusDot(labels[|labels| - numberOfWords..]);
    }
    if numberOfWords == |labels| {
      SplitInputSpec(givenInput);
    }
    assert labels[|labels| - |labels|..] == labels;
  }

  // ---------------------------------------------------------------------------
  // Reply text

  /** `actAsTemporaryClient`'s decoding of a reply: drop the enclosing brackets,
      cut on every comma. Whatever the text, there is at least one piece. */
  function Decode(serverMessage: string): (listOfMessages: seq<string>)
    ensures |listOfMessages| > 0
  {
    Split(Strip(serverMessage, {'[', ']'}), ',')
  }

  /** There is one piece more than there are commas left once the brackets are
      stripped, and no piece holds a comma. */
  lemma DecodeSpec(serverMessage: string)
    ensures |Decode(serverMessage)| == multiset(Strip(serverMessage, {'[', ']'}))[','] + 1
    ensures forall i :: 0 <= i < |Decode(serverMessage)| ==> ',' !in Decode(serverMessage)[i]
  {
    SplitSpec(Strip(serverMessage, {'[', ']'}), ',');
  }

  /** One received message with surrounding whitespace and every `'` removed. */
  function Clean(message: string): (cleaned: string)
    ensures '\'' !in cleaned
  {
    RemoveAll(Strip(message, Whitespace), '\'')
  }

  /** What the caller takes from a reply: the last message, cleaned. */
  function Payload(listOfMessages: seq<string>): (ipAddress: string)
    requires |listOfMessages| > 0
    ensures '\'' !in ipAddress
  {
    Clean(listOfMessages[|listOfMessages| - 1])
  }

  /** `getInputForNextServer`: cleans every message into a new list, reverses
      that list in place and returns its first element, the cleaned last message.
      The argument is only read. */
  method GetInputForNextServer(listOfMessages: seq<string>) returns (ipAddressOfTld: string)
    requires |listOfMessages| > 0
    ensures ipAddressOfTld == Payload(listOfMessages)
    ensures '\'' !in ipAddressOfTld
  {
    var cleanList := new string[|listOfMessages|];
    for i := 0 to |listOfMessages|
      invariant forall k :: 0 <= k < i ==> cleanList[k] == Clean(listOfMessages[k])
    {
      cleanList[i] := Clean(listOfMessages[i]);
    }
    ghost var cleaned := cleanList[..];
    assert cleaned[|cleaned| - 1] == Payload(listOfMessages);
    Reverse(cleanList);
    assert cleanList[..] == Reversed(cleaned);
    assert cleanList[..][0] == cleaned[|cleaned| - 1];
    ipAddressOfTld := cleanList[0];
  }

  /** The messages for which Python's `repr` is the message between single quotes:
      printable ASCII with no quote and no backslash; the model also rules out commas. */
  predicate PlainMessage(m: string)
  {
    forall c :: c in m ==> ' ' <= c <= '~' && c != ',' && c != '\'' && c != '\\'
  }

  /** `repr(m)` for a plain message. */
  function Quoted(m: string): (quoted: string)
  {
    "'" + m + "'"
  }

  /** The items of `str(list)`, separated by `", "`. */
  function Items(messages: seq<string>): (items: string)
    decreases |messages|
  {
    if messages == [] then ""
    else if |messages| == 1 then Quoted(messages[0])
    else Quoted(messages[0]) + ", " + Items(messages[1..])
  }

  /** What a tier sends: `str(result)` of its list of messages. */
  function Encode(messages: seq<string>): (serverMessage: string)
  {
    "[" + Items(messages) + "]"
  }

  lemma {:induction false} ItemsShape(messages: seq<string>)
    requires |messages| > 0
    ensures |Items(messages)| >= 2
    ensures Items(messages)[0] == '\'' && Items(messages)[|Items(messages)| - 1] == '\''
    decreases |messages|
  {
    if |messages| > 1 {
      ItemsShape(messages[1..]);
    }
  }

  /** Splitting the items on commas gives one piece per message: the first is
      the quoted message, each later one has the blank of the separator in front. */
  lemma {:induction false} SplitItems(messages: seq<string>)
    requires |messages| > 0
    requires forall i :: 0 <= i < |messages| ==> PlainMessage(messages[i])
    ensures |Split(Items(messages), ',')| == |messages|
    ensures Split(Items(messages), ',')[0] == Quoted(messages[0])
    ensures forall i :: 1 <= i < |messages| ==> Split(Items(messages), ',')[i] == " " + Quoted(messages[i])
    decreases |messages|
  {
    var q := Quoted(messages[0]);
    assert PlainMessage(messages[0]);
    assert ',' !in q;
    if |messages| == 1 {
      SplitWithoutSep(q, ',');
    } else {
      var rest := Items(messages[1..]);
      var tail := [' '] + rest;
      assert Items(messages) == q + [','] + tail;
      SplitAfterFirst(q, tail, ',');
      SplitConsNonSep(' ', rest, ',');
      SplitItems(messages[1..]);
      var pieces := Split(rest, ',');
      assert Split(Items(messages), ',') == [q] + ([[' '] + pieces[0]] + pieces[1..]);
    }
  }

  /** Cleaning a piece, with or without the leading blank, gives the message back. */
  lemma CleanQuoted(pad: string, m: string)
    requires pad == "" || pad == " "
    requires PlainMessage(m)
    ensures Clean(pad + Quoted(m)) == m
  {
    var q := Quoted(m);
    assert ' ' in Whitespace;
    StripExact(pad, q, "", Whitespace);
    assert pad + q + "" == pad + q;
    assert '\'' !in m;
    RemoveAllAppend("'" + m, "'", '\'');
    RemoveAllAppend("'", m, '\'');
    RemoveAllAbsent(m, '\'');
  }

  /** On plain messages, decoding what a tier sends and cleaning each piece
      returns exactly the messages that were sent. */
  lemma RoundTrip(messages: seq<string>)
    requires |messages| > 0
    requires forall i :: 0 <= i < |messages| ==> PlainMessage(messages[i])
    ensures |Decode(Encode(messages))| == |messages|
    ensures forall i :: 0 <= i < |messages| ==> Clean(Decode(Encode(messages))[i]) == messages[i]
  {
    var items := Items(messages);
    ItemsShape(messages);
    StripExact("[", items, "]", {'[', ']'});
    var pieces := Decode(Encode(messages));
    assert pieces == Split(items, ',');
    SplitItems(messages);
    forall i | 0 <= i < |messages|
      ensures Clean(pieces[i]) == messages[i]
    {
      if i == 0 {
        CleanQuoted("", messages[i]);
        assert "" + Quoted(messages[i]) == Quoted(messages[i]);
      } else {
        CleanQuoted(" ", messages[i]);
      }
    }
  }

  /** The resolver's view of the round trip: the address a tier put last is the
      address the caller takes from the reply. */
  lemma PayloadOfEncoded(messages: seq<string>)
    requires |messages| > 0
    requires forall i :: 0 <= i < |messages| ==> PlainMessage(messages[i])
    ensures Payload(Decode(Encode(messages))) == messages[|messages| - 1]
  {
    RoundTrip(messages);
  }
}
