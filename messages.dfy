/** The message table of the HTTP layer: message codes mapped to an HTTP
    status, a response code and a text per language, and the conversion of
    an error whose text is a message code into the error response. */
module Messages {
  import opened Values

  /** One entry of the message table. */
  datatype MessageEntry = MessageEntry(statusCode: int, messageCode: string, message: map<string, string>)

  function Entry(statusCode: int, code: string, ja: string, en: string): MessageEntry
  {
    MessageEntry(statusCode, code, map["ja" := ja, "en" := en])
  }

  /** The message table. */
  const MessageConfig: map<string, MessageEntry> := map[
    "00001I" := Entry(200, "00001I", "すでにお気に入り登録済みです。", "Already liked."),
    "00001E" := Entry(400, "00001E", "ヘッダーチェック処理にてエラーが発生しました。", "header parameter is invalid."),
    "00002E" := Entry(400, "00002E", "クライアントIDチェック処理にてエラーが発生しました。", "ClientID parameter is invalid."),
    "10001E" := Entry(500, "10001E", "DBへのデータ取得時にエラーが発生しました。", "DB select error."),
    "10002E" := Entry(500, "10002E", "オブジェクトの変換に失敗しました。", "object mapping error."),
    "10003E" := Entry(500, "10003E", "DBへのデータ保存時にエラーが発生しました。", "DB update error.")
  ]

  /** The text of an error, as `Error()` gives it. An error tagged with a
      message code reads as its code. */
  function ErrorText(e: Error): string
  {
    match e
    case Plain(t) => t
    case Converted(code, _) => code
  }

  /** `SetErrorMassage`: an error whose text is the message code. */
  function SetErrorMassage(code: string): Error
  {
    Plain(code)
  }

  function GetMessageStatusCode(code: string): int
    requires code in MessageConfig
  {
    MessageConfig[code].statusCode
  }

  function GetMessageMessageCode(code: string): string
    requires code in MessageConfig
  {
    MessageConfig[code].messageCode
  }

  /** The language a message is given in: Japanese unless Japanese or English
      is asked for. */
  function MessageLanguage(lang: string): string
  {
    if lang == "ja" || lang == "en" then lang else "ja"
  }

  lemma TableHasBothLanguages()
    ensures forall code :: code in MessageConfig ==>
      "ja" in MessageConfig[code].message && "en" in MessageConfig[code].message
  {
  }

  function GetMessageMessage(lang: string, code: string): string
    requires code in MessageConfig
  {
    TableHasBothLanguages();
    MessageConfig[code].message[MessageLanguage(lang)]
  }

  /** A language other than Japanese or English gets the Japanese text; each
      of those two gets its own. */
  lemma MessageLanguageFallback(lang: string, code: string)
    requires code in MessageConfig
    ensures lang == "en" ==> GetMessageMessage(lang, code) == MessageConfig[code].message["en"]
    ensures lang != "en" ==> GetMessageMessage(lang, code) == MessageConfig[code].message["ja"]
  {
    TableHasBothLanguages();
  }

  // ---------------------------------------------------------------------------
  // The code check `\d{5}[IWE]`

  predicate IsAsciiDigit(c: char)
  {
    '0' <= c <= '9'
  }

  /** Five ASCII digits and then `I`, `W` or `E`, starting at `i`. */
  predicate CodeAt(s: string, i: int)
  {
    0 <= i && i + 6 <= |s|
    && (forall j :: i <= j < i + 5 ==> IsAsciiDigit(s[j]))
    && s[i + 5] in {'I', 'W', 'E'}
  }

  /** The unanchored match of `\d{5}[IWE]`: somewhere in the text. */
  predicate ContainsCode(s: string)
  {
    exists i :: 0 <= i <= |s| && CodeAt(s, i)
  }

  /** The response the error handler writes. */
  datatype Reply = Reply(status: int, code: string, message: string)

  const UnhandledReply := Reply(500, "500", "Unhandled internal server error")

  /** The outcome of `GetErrorMassage` as written: a reply, or a panic when
      the text passes the check but is not a key of the table (the table
      lookup yields nil and its type assertion fails). */
  datatype Outcome = Replied(reply: Reply) | Panicked

  function GetErrorMassageAsWritten(lang: string, err: Error): Outcome
  {
    var code := ErrorText(err);
    if !ContainsCode(code) then Replied(UnhandledReply)
    else if code in MessageConfig then
      Replied(Reply(GetMessageStatusCode(code), GetMessageMessageCode(code), GetMessageMessage(lang, code)))
    else Panicked
  }

  /** `GetErrorMassage` as evidently intended: a text that is not a key of the
      table gets the unhandled-error reply. */
  function GetErrorMassage(lang: string, err: Error): Reply
  {
    var code := ErrorText(err);
    if code in MessageConfig then
      Reply(GetMessageStatusCode(code), GetMessageMessageCode(code), GetMessageMessage(lang, code))
    else UnhandledReply
  }

  /** Every key of the table passes the code check. */
  lemma TableCodesPassCheck()
    ensures forall code :: code in MessageConfig ==> ContainsCode(code)
  {
    forall code | code in MessageConfig ensures ContainsCode(code) {
      assert CodeAt(code, 0);
    }
  }

  /** The as-written reply panics exactly on a text that passes the check
      but is not in the table; otherwise it agrees with the intended one. */
  lemma AsWrittenPanicsOnUnknownCodes(lang: string, err: Error)
    ensures GetErrorMassageAsWritten(lang, err).Panicked? <==>
      ContainsCode(ErrorText(err)) && ErrorText(err) !in MessageConfig
    ensures GetErrorMassageAsWritten(lang, err).Replied? ==>
      GetErrorMassageAsWritten(lang, err).reply == GetErrorMassage(lang, err)
  {
    TableCodesPassCheck();
  }

  /** The codes 10004E and 10005E, which the like toggle reports, pass the
      check but are not in the table, so the reply as written panics. */
  lemma UnknownCodePanics()
    ensures GetErrorMassageAsWritten("ja", SetErrorMassage("10004E")).Panicked?
    ensures GetErrorMassageAsWritten("en", SetErrorMassage("10005E")).Panicked?
    ensures GetErrorMassage("ja", SetErrorMassage("10004E")) == UnhandledReply
  {
    assert CodeAt("10004E", 0);
    assert CodeAt("10005E", 0);
  }

  /** The intended reply: a table code answers with its status, its response
      code and its text in the chosen language; anything else answers 500. */
  lemma ErrorReply(lang: string, err: Error)
    ensures ErrorText(err) in MessageConfig ==>
      var entry := MessageConfig[ErrorText(err)];
      GetErrorMassage(lang, err) == Reply(entry.statusCode, entry.messageCode, entry.message[MessageLanguage(lang)])
    ensures ErrorText(err) !in MessageConfig ==> GetErrorMassage(lang, err) == UnhandledReply
    ensures !ContainsCode(ErrorText(err)) ==> GetErrorMassageAsWritten(lang, err) == Replied(UnhandledReply)
  {
    TableHasBothLanguages();
    TableCodesPassCheck();
  }

  /** `SetErrorMassage(code)` reads back as `code`, so the reply looks that
      same code up: 00001I answers 200 and 10001E answers 500. */
  lemma SetErrorRoundTrip(code: string, lang: string)
    ensures ErrorText(SetErrorMassage(code)) == code
    ensures GetErrorMassage(lang, SetErrorMassage("00001I")).status == 200
    ensures GetErrorMassage(lang, SetErrorMassage("10001E")).status == 500
    ensures GetErrorMassage(lang, SetErrorMassage("10001E")).code == "10001E"
    ensures code in MessageConfig ==>
      GetErrorMassageAsWritten(lang, SetErrorMassage(code)) == Replied(GetErrorMassage(lang, SetErrorMassage(code)))
  {
    TableCodesPassCheck();
  }

  /** Text without any digit never passes the code check. */
  lemma NoDigitNoCode(s: string)
    requires forall i :: 0 <= i < |s| ==> !IsAsciiDigit(s[i])
    ensures !ContainsCode(s)
  {
    forall i | 0 <= i <= |s| ensures !CodeAt(s, i) {
      if i + 6 <= |s| {
        assert !IsAsciiDigit(s[i]);
      }
    }
  }

  /** The check is unanchored: a code anywhere in a longer text passes it. */
  lemma CodeInsideText(prefix: string, code: string, suffix: string)
    requires CodeAt(code, 0) && |code| == 6
    ensures ContainsCode(prefix + code + suffix)
  {
    var s := prefix + code + suffix;
    assert CodeAt(s, |prefix|) by {
      forall j | |prefix| <= j < |prefix| + 5 ensures IsAsciiDigit(s[j]) {
        assert s[j] == code[j - |prefix|];
      }
      assert s[|prefix| + 5] == code[5];
    }
  }
}
