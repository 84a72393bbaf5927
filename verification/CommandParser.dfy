/** What a user types becomes a message: slash commands for whispers, parties and friends, and plain
    text for everybody. The parser is proved to accept exactly a grammar, and to have a normal form. */
module CommandParser {
  import opened Wrappers
  import opened Words
  import opened Wire
  import opened ChatMessages
  import opened Framing

  const ALL_MESSAGE: int32 := 2
  const WHISPER_MESSAGE: int32 := 3
  const PARTY_MESSAGE: int32 := 4
  const PARTY_CREATE: int32 := 41
  const PARTY_DELETE: int32 := 42
  const PARTY_JOIN: int32 := 43
  const PARTY_LEAVE: int32 := 44
  const FRIEND_REQUEST: int32 := 50
  const FRIEND_ACCEPT: int32 := 51
  const FRIEND_REJECT: int32 := 52
  const ERROR_MESSAGE: int32 := 99

  const SPACE: byte := 32
  const DASH: byte := 45

  /** /w, /p, /fr, /fa and /fj; all but the first end in a space. */
  const W: Bytes := [47, 119]
  const P: Bytes := [47, 112, 32]
  const FR: Bytes := [47, 102, 114, 32]
  const FA: Bytes := [47, 102, 97, 32]
  const FJ: Bytes := [47, 102, 106, 32]

  /** -create, -delete, -join and -leave. */
  const CREATE: Bytes := [45, 99, 114, 101, 97, 116, 101]
  const DELETE: Bytes := [45, 100, 101, 108, 101, 116, 101]
  const JOIN: Bytes := [45, 106, 111, 105, 110]
  const LEAVE: Bytes := [45, 108, 101, 97, 118, 101]

  const ERROR: Bytes := [69, 114, 114, 111, 114]

  // ---- Strings ----

  /** The position that means there is none, and one less than which a string's size must be. */
  const NPOS: nat := TWO_64 - 1

  type Input = s: Bytes | |s| < NPOS

  /** The first place at or after `from` that holds `c`. */
  function Find(s: Input, c: byte, from: nat): (at: nat)
    ensures at == NPOS ==> forall i :: from <= i < |s| ==> s[i] != c
    ensures at != NPOS ==> from <= at < |s| && s[at] == c && forall i :: from <= i < at ==> s[i] != c
    decreases |s| - from
  {
    if from >= |s| then NPOS else if s[from] == c then from else Find(s, c, from + 1)
  }

  /** At most `count` bytes from `pos` on; a position beyond the end would throw. */
  function Substr(s: Input, pos: nat, count: nat): (r: Input)
    requires pos <= |s|
  {
    if pos + count <= |s| then s[pos..pos + count] else s[pos..]
  }

  lemma FindSplits(s: Input, c: byte, before: Bytes, word: Bytes, after: Bytes)
    requires s == before + word + [c] + after && c !in word
    ensures Find(s, c, |before|) == |before| + |word|
  {
    hide Find;
    assert s[|before| + |word|] == c;
    assert forall i :: |before| <= i < |before| + |word| ==> s[i] == word[i - |before|];
  }

  lemma Parts(s: Bytes, before: Bytes, word: Bytes, after: Bytes)
    requires s == before + word + after
    ensures s[..|before|] == before
    ensures s[|before|..|before| + |word|] == word
    ensures s[|before| + |word|..] == after
  {
  }

  // ---- The parser ----

  predicate IsWhisperMessage(s: Input) { Substr(s, 0, 2) == W }
  predicate IsPartyMessage(s: Input) { Substr(s, 0, 3) == P }
  predicate IsFriendRequestMessage(s: Input) { Substr(s, 0, 4) == FR }
  predicate IsFriendAcceptMessage(s: Input) { Substr(s, 0, 4) == FA }
  predicate IsFriendRejectMessage(s: Input) { Substr(s, 0, 4) == FJ }

  function ExtractOptionAndPartyName(s: Input): (Input, Input) {
    if |s| < 3 then (ERROR, [])
    else
      var spacePos := Find(s, SPACE, 0);
      if spacePos == NPOS then ([], [])
      else if Substr(s, 0, 3) == P then
        var optionPos := Find(s, DASH, 3);
        if optionPos == NPOS then ([], [])
        else
          var optionEndPos := Find(s, SPACE, optionPos + 1);
          if optionEndPos == NPOS then (ERROR, [])
          else (Substr(s, optionPos, optionEndPos - optionPos), Substr(s, optionEndPos + 1, NPOS))
      else ([], Substr(s, spacePos + 1, NPOS))
  }

  function GetPartyMessageType(option: Input): int32 {
    if option == CREATE then PARTY_CREATE
    else if option == DELETE then PARTY_DELETE
    else if option == JOIN then PARTY_JOIN
    else if option == LEAVE then PARTY_LEAVE
    else ERROR_MESSAGE
  }

  function Whisper(s: Input): (m: Option<Message>)
    ensures m.Some? ==> m.value.sender == []
  {
    var spacePos := Find(s, SPACE, 0);
    var receiverEndPos := Find(s, SPACE, (spacePos + 1) % TWO_64);
    if spacePos == NPOS || receiverEndPos == NPOS then None
    else Some(Message(WHISPER_MESSAGE, [], Substr(s, spacePos + 1, receiverEndPos - spacePos - 1),
                      Substr(s, receiverEndPos + 1, NPOS)))
  }

  function Party(s: Input): (m: Option<Message>)
    requires IsPartyMessage(s)
    ensures m.Some? ==> m.value.sender == m.value.receiver == []
  {
    var (option, name) := ExtractOptionAndPartyName(s);
    if option == [] then Some(Message(PARTY_MESSAGE, [], [], Substr(s, 3, NPOS)))
    else if option == CREATE || option == DELETE || option == JOIN || option == LEAVE then
      if name == [] then None else Some(Message(GetPartyMessageType(option), [], [], name))
    else None
  }

  /** The message a line of input stands for, if it is well formed. */
  function Command(s: Input): Option<Message> {
    if IsWhisperMessage(s) then Whisper(s)
    else if IsPartyMessage(s) then Party(s)
    else if IsFriendRequestMessage(s) then Some(Message(FRIEND_REQUEST, [], [], Substr(s, 4, NPOS)))
    else if IsFriendAcceptMessage(s) then Some(Message(FRIEND_ACCEPT, [], [], Substr(s, 4, NPOS)))
    else if IsFriendRejectMessage(s) then Some(Message(FRIEND_REJECT, [], [], Substr(s, 4, NPOS)))
    else Some(Message(ALL_MESSAGE, [], [], s))
  }

  // ---- The grammar ----

  predicate Spells(option: Bytes, kind: int32) {
    || (option == CREATE && kind == PARTY_CREATE)
    || (option == DELETE && kind == PARTY_DELETE)
    || (option == JOIN && kind == PARTY_JOIN)
    || (option == LEAVE && kind == PARTY_LEAVE)
  }

  /** /w, anything without a space, a space, a receiver without a space, a space and the text. */
  predicate WhisperWith(s: Bytes, m: Message, noise: Bytes) {
    SPACE !in noise && SPACE !in m.receiver && s == W + noise + [SPACE] + m.receiver + [SPACE] + m.content
  }

  /** /p, anything without a dash, one of four options, a space and a name that is not empty. */
  predicate PartyWith(s: Bytes, m: Message, noise: Bytes, option: Bytes) {
    DASH !in noise && Spells(option, m.messageType) && m.content != [] && s == P + noise + option + [SPACE] + m.content
  }

  predicate IsPlain(s: Bytes) {
    !(W <= s) && !(P <= s) && !(FR <= s) && !(FA <= s) && !(FJ <= s)
  }

  ghost predicate Denotes(s: Bytes, m: Message) {
    && m.sender == []
    && if m.messageType == WHISPER_MESSAGE then exists noise :: WhisperWith(s, m, noise)
       else
         && m.receiver == []
         && if m.messageType == ALL_MESSAGE then IsPlain(s) && s == m.content
            else if m.messageType == PARTY_MESSAGE then DASH !in m.content && s == P + m.content
            else if m.messageType == FRIEND_REQUEST then s == FR + m.content
            else if m.messageType == FRIEND_ACCEPT then s == FA + m.content
            else if m.messageType == FRIEND_REJECT then s == FJ + m.content
            else exists noise, option :: PartyWith(s, m, noise, option)
  }

  lemma StartsWith(s: Input, prefix: Bytes)
    requires |prefix| < NPOS
    ensures Substr(s, 0, |prefix|) == prefix <==> prefix <= s
  {
  }

  /** A string with one byte at `i` and another at `j`, taken apart around them. */
  lemma Cut(s: Bytes, start: nat, i: nat, j: nat)
    requires start <= i < j < |s|
    ensures s == s[..start] + s[start..i] + [s[i]] + s[i + 1..j] + [s[j]] + s[j + 1..]
    ensures s == s[..start] + s[start..i] + s[i..j] + [s[j]] + s[j + 1..]
  {
  }

  /** At most one command begins a string. */
  lemma OnePrefix(s: Input)
    ensures IsWhisperMessage(s) == (W <= s) && IsPartyMessage(s) == (P <= s)
    ensures IsFriendRequestMessage(s) == (FR <= s) && IsFriendAcceptMessage(s) == (FA <= s)
    ensures IsFriendRejectMessage(s) == (FJ <= s)
    ensures IsWhisperMessage(s) ==> s[1] == 119
    ensures IsPartyMessage(s) ==> s[1] == 112
    ensures FR <= s || FA <= s || FJ <= s ==> s[1] == 102
  {
    StartsWith(s, W);
    StartsWith(s, P);
    StartsWith(s, FR);
    StartsWith(s, FA);
    StartsWith(s, FJ);
  }

  lemma WhisperIsDenoted(s: Input, m: Message)
    requires IsWhisperMessage(s) && Whisper(s) == Some(m)
    ensures Denotes(s, m)
  {
    hide Find;
    var i := Find(s, SPACE, 0);
    var j := Find(s, SPACE, i + 1);
    assert s[0] == W[0] && s[1] == W[1];
    WhisperShape(s, m, i, j);
  }

  lemma WhisperShape(s: Input, m: Message, i: nat, j: nat)
    requires IsWhisperMessage(s) && 2 <= i < j < |s| && s[i] == s[j] == SPACE
    requires forall k :: 2 <= k < i || i < k < j ==> s[k] != SPACE
    requires m == Message(WHISPER_MESSAGE, [], s[i + 1..j], s[j + 1..])
    ensures Denotes(s, m)
  {
    Cut(s, 2, i, j);
    assert s[..2] == W;
    assert SPACE !in s[2..i];
    assert SPACE !in s[i + 1..j];
    assert WhisperWith(s, m, s[2..i]);
  }

  lemma DenotedWhisper(s: Input, m: Message, noise: Bytes)
    requires WhisperWith(s, m, noise) && m.messageType == WHISPER_MESSAGE && m.sender == []
    ensures Whisper(s) == Some(m)
  {
    hide Find;
    WhisperPositions(s, W + noise, m.receiver, m.content);
  }

  lemma WhisperPositions(s: Input, word: Bytes, receiver: Bytes, content: Bytes)
    requires SPACE !in word && SPACE !in receiver
    requires s == word + [SPACE] + receiver + [SPACE] + content
    ensures Whisper(s) == Some(Message(WHISPER_MESSAGE, [], receiver, content))
  {
    hide Find;
    TwoSpaces(s, word, receiver, content);
    WhisperParts(s, word, receiver, content);
  }

  lemma TwoSpaces(s: Input, word: Bytes, receiver: Bytes, content: Bytes)
    requires SPACE !in word && SPACE !in receiver
    requires s == word + [SPACE] + receiver + [SPACE] + content
    ensures Find(s, SPACE, 0) == |word|
    ensures Find(s, SPACE, |word| + 1) == |word| + 1 + |receiver|
  {
    hide Find;
    var after := receiver + [SPACE] + content;
    assert [] + word == word;
    assert s == word + [SPACE] + after;
    FindSplits(s, SPACE, [], word, after);
    FindSplits(s, SPACE, word + [SPACE], receiver, content);
  }

  lemma WhisperParts(s: Bytes, word: Bytes, receiver: Bytes, content: Bytes)
    requires s == word + [SPACE] + receiver + [SPACE] + content
    ensures |s| == |word| + |receiver| + |content| + 2
    ensures s[|word| + 1..|word| + 1 + |receiver|] == receiver
    ensures s[|word| + 1 + |receiver| + 1..] == content
  {
  }

  lemma PartyIsDenoted(s: Input, m: Message)
    requires IsPartyMessage(s) && Party(s) == Some(m)
    ensures Denotes(s, m)
  {
    hide Find;
    assert s[2] == P[2];
    var i := Find(s, DASH, 3);
    if i == NPOS {
      assert s == P + s[3..];
    } else {
      PartyOptionIsDenoted(s, m, i);
    }
  }

  lemma PartyOptionIsDenoted(s: Input, m: Message, i: nat)
    requires IsPartyMessage(s) && Party(s) == Some(m)
    requires i == Find(s, DASH, 3) != NPOS
    ensures Denotes(s, m)
  {
    hide Find;
    assert s[2] == P[2];
    var j := Find(s, SPACE, i + 1);
    assert s[i..j][0] == DASH;
    assert m == Message(GetPartyMessageType(s[i..j]), [], [], s[j + 1..]);
    PartyShape(s, m, i, j);
  }

  lemma PartyShape(s: Input, m: Message, i: nat, j: nat)
    requires IsPartyMessage(s) && 3 <= i < j < |s| && s[j] == SPACE
    requires forall k :: 3 <= k < i ==> s[k] != DASH
    requires Spells(s[i..j], m.messageType) && s[j + 1..] != []
    requires m == Message(m.messageType, [], [], s[j + 1..])
    ensures Denotes(s, m)
  {
    Cut(s, 3, i, j);
    assert s[..3] == P;
    assert DASH !in s[3..i];
    assert PartyWith(s, m, s[3..i], s[i..j]);
  }

  lemma DenotedPartyText(s: Input, m: Message)
    requires m.sender == m.receiver == [] && m.messageType == PARTY_MESSAGE
    requires DASH !in m.content && s == P + m.content
    ensures IsPartyMessage(s) && Party(s) == Some(m)
  {
    hide Find;
    StartsWith(s, P);
    assert P <= s && s[2] == SPACE;
    assert forall i :: 3 <= i < |s| ==> s[i] == m.content[i - 3];
    assert Find(s, DASH, 3) == NPOS;
  }

  lemma DenotedFriend(s: Input, m: Message)
    requires FRIEND_REQUEST <= m.messageType <= FRIEND_REJECT && Denotes(s, m)
    ensures Command(s) == Some(m)
  {
    hide Whisper, Party, PartyWith, WhisperWith;
    assert s[0] == 47 && s[1] == 102 && s[3] == SPACE;
    assert s[2] == if m.messageType == FRIEND_REQUEST then 114 else if m.messageType == FRIEND_ACCEPT then 97 else 106;
    assert s[4..] == m.content;
  }

  lemma DenotedPartyOption(s: Input, m: Message, noise: Bytes, option: Bytes)
    requires PartyWith(s, m, noise, option) && m.sender == [] && m.receiver == []
    ensures IsPartyMessage(s) && Party(s) == Some(m)
  {
    hide Find;
    StartsWith(s, P);
    PartyPositions(s, noise, option[1..], option, m.content);
  }

  lemma PartyPositions(s: Input, noise: Bytes, letters: Bytes, option: Bytes, name: Bytes)
    requires DASH !in noise && SPACE !in letters && option == [DASH] + letters
    requires s == P + noise + option + [SPACE] + name
    ensures IsPartyMessage(s) && ExtractOptionAndPartyName(s) == (option, name)
  {
    hide Find;
    StartsWith(s, P);
    assert P <= s && s[2] == SPACE;
    assert |P| == 3;
    hide P;
    var before := P + noise;
    assert s == P + noise + [DASH] + (letters + [SPACE] + name);
    FindSplits(s, DASH, P, noise, letters + [SPACE] + name);
    assert s == before + [DASH] + letters + [SPACE] + name;
    FindSplits(s, SPACE, before + [DASH], letters, name);
    assert s == before + option + ([SPACE] + name);
    Parts(s, before, option, [SPACE] + name);
    Parts(s, before + option, [SPACE], name);
  }

  /** The parser accepts exactly the grammar, for every input and every message. */
  lemma CommandIsGrammar(s: Input, m: Message)
    ensures Command(s) == Some(m) <==> Denotes(s, m)
  {
    OnePrefix(s);
    if Command(s) == Some(m) {
      CommandIsDenoted(s, m);
    }
    if Denotes(s, m) {
      DenotedIsCommand(s, m);
    }
  }

  lemma CommandIsDenoted(s: Input, m: Message)
    requires Command(s) == Some(m)
    ensures Denotes(s, m)
  {
    hide Whisper, Party;
    OnePrefix(s);
    if IsWhisperMessage(s) {
      WhisperIsDenoted(s, m);
    } else if IsPartyMessage(s) {
      PartyIsDenoted(s, m);
    } else if !IsPlain(s) {
      assert s == s[..4] + s[4..];
    }
  }

  lemma DenotedIsCommand(s: Input, m: Message)
    requires Denotes(s, m)
    ensures Command(s) == Some(m)
  {
    hide Whisper, Party, Spells;
    OnePrefix(s);
    if m.messageType == WHISPER_MESSAGE {
      var noise :| WhisperWith(s, m, noise);
      DenotedWhisper(s, m, noise);
    } else if m.messageType == PARTY_MESSAGE {
      DenotedPartyText(s, m);
    } else if m.messageType == ALL_MESSAGE {
    } else if FRIEND_REQUEST <= m.messageType <= FRIEND_REJECT {
      DenotedFriend(s, m);
    } else {
      var noise, option :| PartyWith(s, m, noise, option);
      DenotedPartyOption(s, m, noise, option);
    }
  }

  // ---- The normal form ----

  /** The messages that some line of input stands for. */
  predicate Expressible(m: Message) {
    && m.sender == []
    && if m.messageType == WHISPER_MESSAGE then SPACE !in m.receiver
       else
         && m.receiver == []
         && (m.messageType == ALL_MESSAGE ==> IsPlain(m.content))
         && (m.messageType == PARTY_MESSAGE ==> DASH !in m.content)
         && (PARTY_CREATE <= m.messageType <= PARTY_LEAVE ==> m.content != [])
         && m.messageType in {ALL_MESSAGE, PARTY_MESSAGE, PARTY_CREATE, PARTY_DELETE, PARTY_JOIN, PARTY_LEAVE,
                              FRIEND_REQUEST, FRIEND_ACCEPT, FRIEND_REJECT}
  }

  function OptionOf(kind: int32): Bytes {
    if kind == PARTY_CREATE then CREATE
    else if kind == PARTY_DELETE then DELETE
    else if kind == PARTY_JOIN then JOIN
    else LEAVE
  }

  function Print(m: Message): Bytes {
    if m.messageType == WHISPER_MESSAGE then W + [SPACE] + m.receiver + [SPACE] + m.content
    else if m.messageType == PARTY_MESSAGE then P + m.content
    else if m.messageType == FRIEND_REQUEST then FR + m.content
    else if m.messageType == FRIEND_ACCEPT then FA + m.content
    else if m.messageType == FRIEND_REJECT then FJ + m.content
    else if m.messageType == ALL_MESSAGE then m.content
    else P + OptionOf(m.messageType) + [SPACE] + m.content
  }

  lemma PrintDenotes(m: Message)
    requires Expressible(m)
    ensures Denotes(Print(m), m)
  {
    var s := Print(m);
    if m.messageType == WHISPER_MESSAGE {
      assert W + [] + [SPACE] + m.receiver + [SPACE] + m.content == s;
      assert WhisperWith(s, m, []);
    } else if PARTY_CREATE <= m.messageType <= PARTY_LEAVE {
      assert P + [] + OptionOf(m.messageType) + [SPACE] + m.content == s;
      assert PartyWith(s, m, [], OptionOf(m.messageType));
    }
  }

  /** Printing a message canonically and parsing it again gives the message back, exactly when some
      input stands for it at all. */
  lemma PrintParsesIffExpressible(m: Message)
    requires |Print(m)| < NPOS
    ensures Command(Print(m)) == Some(m) <==> Expressible(m)
  {
    if Expressible(m) {
      PrintDenotes(m);
      CommandIsGrammar(Print(m), m);
    }
    if Command(Print(m)) == Some(m) {
      CommandIsExpressible(Print(m));
    }
  }

  lemma CommandIsExpressible(s: Input)
    requires Command(s).Some?
    ensures Expressible(Command(s).value)
  {
    var m := Command(s).value;
    CommandIsGrammar(s, m);
    hide Command;
    if m.messageType == WHISPER_MESSAGE {
      assert exists noise :: WhisperWith(s, m, noise);
    }
  }

  /** Parsing, printing and parsing again changes nothing, and what is printed is never longer than
      what was typed. */
  lemma NormalForm(s: Input)
    requires Command(s).Some?
    ensures |Print(Command(s).value)| <= |s|
    ensures Command(Print(Command(s).value)) == Command(s)
  {
    var m := Command(s).value;
    CommandIsExpressible(s);
    PrintIsShortest(s, m);
    PrintParsesIffExpressible(m);
  }

  lemma PrintIsShortest(s: Input, m: Message)
    requires Command(s) == Some(m)
    ensures |Print(m)| <= |s|
  {
    CommandIsGrammar(s, m);
    hide Command;
    if m.messageType == WHISPER_MESSAGE {
      var noise :| WhisperWith(s, m, noise);
    } else if m.messageType !in {ALL_MESSAGE, PARTY_MESSAGE, FRIEND_REQUEST, FRIEND_ACCEPT, FRIEND_REJECT} {
      var noise, option :| PartyWith(s, m, noise, option);
    }
  }

  // ---- What is typed and what is sent ----

  /** The words of the commands. */
  lemma CommandWords()
    ensures W == Ascii("/w") && P == Ascii("/p ") && FR == Ascii("/fr ") && FA == Ascii("/fa ") && FJ == Ascii("/fj ")
    ensures [SPACE] == Ascii(" ") && [DASH] == Ascii("-")
  {
  }

  lemma OptionWords()
    ensures CREATE == Ascii("-create") && DELETE == Ascii("-delete")
  {
  }

  lemma MoreOptionWords()
    ensures JOIN == Ascii("-join") && LEAVE == Ascii("-leave")
  {
  }

  /** A line as it is typed: a command and what follows it. */
  function Line(word: string, text: Bytes): (line: Bytes)
    ensures |line| == |word| + |text|
  {
    Ascii(word) + text
  }

  /** Each party option, as it is typed, and the number of the type it sends. */
  lemma TypedPartyOptions(name: Bytes)
    requires name != [] && |name| < NPOS - 16
    ensures Command(Line("/p ", Line("-create", Line(" ", name)))) == Some(Message(41, [], [], name))
    ensures Command(Line("/p ", Line("-delete", Line(" ", name)))) == Some(Message(42, [], [], name))
    ensures Command(Line("/p ", Line("-join", Line(" ", name)))) == Some(Message(43, [], [], name))
    ensures Command(Line("/p ", Line("-leave", Line(" ", name)))) == Some(Message(44, [], [], name))
  {
    CommandWords();
    OptionWords();
    MoreOptionWords();
    hide Command, Ascii, P, CREATE, DELETE, JOIN, LEAVE, SPACE;
    TypedOption(name, CREATE, 41);
    TypedOption(name, DELETE, 42);
    TypedOption(name, JOIN, 43);
    TypedOption(name, LEAVE, 44);
    assert forall option :: P + (option + ([SPACE] + name)) == P + option + [SPACE] + name;
  }

  lemma TypedOption(name: Bytes, option: Bytes, kind: int32)
    requires name != [] && |name| < NPOS - 16 && Spells(option, kind)
    ensures |P + option + [SPACE] + name| < NPOS && Command(P + option + [SPACE] + name) == Some(Message(kind, [], [], name))
  {
    var s, m := P + option + [SPACE] + name, Message(kind, [], [], name);
    assert P + [] + option + [SPACE] + name == s;
    assert PartyWith(s, m, [], option);
    assert Denotes(s, m);
    CommandIsGrammar(s, m);
  }

  /** The other commands, and plain text. */
  lemma TypedCommands(text: Bytes, receiver: Bytes)
    requires |text| + |receiver| < NPOS - 16 && DASH !in text && SPACE !in receiver
    ensures Command(Line("/w ", receiver + Line(" ", text))) == Some(Message(3, [], receiver, text))
    ensures Command(Line("/p ", text)) == Some(Message(4, [], [], text))
    ensures Command(Line("/fr ", text)) == Some(Message(50, [], [], text))
    ensures Command(Line("/fa ", text)) == Some(Message(51, [], [], text))
    ensures Command(Line("/fj ", text)) == Some(Message(52, [], [], text))
    ensures text == [] || text[0] != 47 ==> Command(text) == Some(Message(2, [], [], text))
  {
    CommandWords();
    assert Ascii("/w ") == W + [SPACE];
    assert W + [SPACE] + (receiver + ([SPACE] + text)) == W + [SPACE] + receiver + [SPACE] + text;
    PrintDenotes(Message(3, [], receiver, text));
    PrintDenotes(Message(4, [], [], text));
    PrintDenotes(Message(50, [], [], text));
    PrintDenotes(Message(51, [], [], text));
    PrintDenotes(Message(52, [], [], text));
    hide Denotes, Command;
    CommandIsGrammar(Print(Message(3, [], receiver, text)), Message(3, [], receiver, text));
    CommandIsGrammar(Print(Message(4, [], [], text)), Message(4, [], [], text));
    CommandIsGrammar(Print(Message(50, [], [], text)), Message(50, [], [], text));
    CommandIsGrammar(Print(Message(51, [], [], text)), Message(51, [], [], text));
    CommandIsGrammar(Print(Message(52, [], [], text)), Message(52, [], [], text));
    if text == [] || text[0] != 47 {
      PrintDenotes(Message(2, [], [], text));
      CommandIsGrammar(text, Message(2, [], [], text));
    }
  }

  // ---- The client ----

  method CreateWhisperMessage(chatMessage: ChatMessage, userInput: Input) returns (ok: bool)
    modifies chatMessage
    ensures ok == Whisper(userInput).Some?
    ensures chatMessage.Value() ==
      if ok then Whisper(userInput).value.(sender := old(chatMessage.sender)) else old(chatMessage.Value())
  {
    hide Find, Substr;
    var spacePos := Find(userInput, SPACE, 0);
    var receiverEndPos := Find(userInput, SPACE, (spacePos + 1) % TWO_64);
    if spacePos == NPOS || receiverEndPos == NPOS {
      return false;
    }
    var receiver := Substr(userInput, spacePos + 1, receiverEndPos - spacePos - 1);
    var message := Substr(userInput, receiverEndPos + 1, NPOS);
    chatMessage.messageType := WHISPER_MESSAGE;
    chatMessage.receiver := receiver;
    chatMessage.content := message;
    ok := true;
  }

  method CreatePartyMessage(chatMessage: ChatMessage, userInput: Input) returns (ok: bool)
    requires IsPartyMessage(userInput)
    modifies chatMessage`messageType, chatMessage`content
    ensures ok == Party(userInput).Some?
    ensures chatMessage.Value() ==
      if ok then Party(userInput).value.(sender := old(chatMessage.sender), receiver := old(chatMessage.receiver))
      else old(chatMessage.Value())
  {
    hide ExtractOptionAndPartyName;
    var (option, partyName) := ExtractOptionAndPartyName(userInput);
    if option == [] {
      chatMessage.messageType := PARTY_MESSAGE;
      chatMessage.content := Substr(userInput, 3, NPOS);
      return true;
    }
    if option == CREATE || option == DELETE || option == JOIN || option == LEAVE {
      if partyName == [] {
        return false;
      }
      chatMessage.messageType := GetPartyMessageType(option);
      chatMessage.content := partyName;
      return true;
    }
    return false;
  }

  /** Requests, acceptances and rejections differ in their type only. */
  method CreateFriendMessage(chatMessage: ChatMessage, kind: int32, userInput: Input) returns (ok: bool)
    requires |userInput| >= 4
    modifies chatMessage`messageType, chatMessage`content
    ensures ok && chatMessage.messageType == kind && chatMessage.content == userInput[4..]
  {
    var friendId := Substr(userInput, 4, NPOS);
    chatMessage.messageType := kind;
    chatMessage.content := friendId;
    return true;
  }

  method CreateNormalMessage(chatMessage: ChatMessage, userInput: Input) returns (ok: bool)
    modifies chatMessage`messageType, chatMessage`content
    ensures ok && chatMessage.messageType == ALL_MESSAGE && chatMessage.content == userInput
  {
    chatMessage.messageType := ALL_MESSAGE;
    chatMessage.content := userInput;
    return true;
  }

  /** Choose how to read the input, and read it. */
  method CreateMessage(chatMessage: ChatMessage, userInput: Input) returns (ok: bool)
    requires chatMessage.Value() == DEFAULT
    modifies chatMessage
    ensures ok == Command(userInput).Some?
    ensures chatMessage.Value() == if ok then Command(userInput).value else DEFAULT
  {
    hide Whisper, Party;
    if IsWhisperMessage(userInput) {
      ok := CreateWhisperMessage(chatMessage, userInput);
    } else if IsPartyMessage(userInput) {
      ok := CreatePartyMessage(chatMessage, userInput);
    } else if IsFriendRequestMessage(userInput) {
      ok := CreateFriendMessage(chatMessage, FRIEND_REQUEST, userInput);
    } else if IsFriendAcceptMessage(userInput) {
      ok := CreateFriendMessage(chatMessage, FRIEND_ACCEPT, userInput);
    } else if IsFriendRejectMessage(userInput) {
      ok := CreateFriendMessage(chatMessage, FRIEND_REJECT, userInput);
    } else {
      ok := CreateNormalMessage(chatMessage, userInput);
    }
  }

  /** The messages that lines of input stand for; malformed lines are dropped. */
  function Commands(inputs: seq<Input>): seq<Message> {
    if inputs == [] then []
    else (if Command(inputs[0]).Some? then [Command(inputs[0]).value] else []) + Commands(inputs[1..])
  }

  method Send(client: ChatClient, userInput: Input)
    requires Command(userInput).Some? ==> Sendable(Command(userInput).value)
    modifies client`sent, client`writeBuf
    ensures client.sent == old(client.sent) + Stream(Commands([userInput]))
  {
    hide Command, Frame;
    var chatMessage := new ChatMessage();
    var ok := CreateMessage(chatMessage, userInput);
    assert Commands([userInput]) == if ok then [chatMessage.Value()] else [];
    if ok {
      client.AsyncWrite(chatMessage);
      OneFrame(chatMessage.Value());
    }
  }

  lemma OneFrame(m: Message)
    ensures Stream([m]) == Frame(m)
  {
    hide Frame;
    assert Stream([m][1..]) == [];
    assert Frame(m) + [] == Frame(m);
  }

  lemma CommandIsDeliverable(s: Input)
    requires Command(s).Some? && |s| <= MAX_FIELD - HEADER_SIZE
    ensures Deliverable(Command(s).value) && Sendable(Command(s).value)
  {
    hide Command;
    var m := Command(s).value;
    CommandIsExpressible(s);
    PrintIsShortest(s, m);
    assert 0 < m.messageType < 128 && |m.receiver| + |m.content| <= |s|;
    SizeIsLength(|m.receiver|);
    SizeIsLength(|m.content|);
    SizeIsLength(m.messageType);
  }

  /** End to end: whatever lines of reasonable length are typed, the messages that the well-formed ones
      stand for arrive whole and in order, and the reader is not stopped by any of them. */
  lemma TypedMessagesArrive(inputs: seq<Input>)
    requires forall i :: 0 <= i < |inputs| ==> |inputs[i]| <= MAX_FIELD - HEADER_SIZE
    ensures Read(Stream(Commands(inputs))) == Reading(Commands(inputs), Closed, [])
  {
    CommandsAreDeliverable(inputs);
    StreamRoundTrip(Commands(inputs));
  }

  lemma {:induction false} CommandsAreDeliverable(inputs: seq<Input>)
    requires forall i :: 0 <= i < |inputs| ==> |inputs[i]| <= MAX_FIELD - HEADER_SIZE
    ensures AllSendable(Commands(inputs)) && AllDeliverable(Commands(inputs))
  {
    hide Command, Deliverable, Sendable;
    if inputs != [] {
      if Command(inputs[0]).Some? {
        CommandIsDeliverable(inputs[0]);
      }
      CommandsAreDeliverable(inputs[1..]);
    }
  }
}
