/** The response envelope every reply of the service is wrapped in
    (`ResultMessage` and `MakeResult`, main.go:54-79) and the table of
    default messages `init` fills in (main.go:313-315). */
module Results {
  import opened Wrappers
  import opened Phrases

  /** The two status codes of main.go:31-32. */
  const ErrorOK: int := 1
  const Error: int := 999

  /** `ErrorMessages` after `init`. */
  const ErrorMessages: map<int, string> := map[ErrorOK := "ok", Error := "错误"]

  /** `Data` is either nil or a batch of records in this service. */
  datatype ResultMessage = ResultMessage(code: int, message: string, data: Option<seq<TranslateData>>)

  /** `MakeResult`: a non-empty message is kept, an empty one is replaced by
      the code's default when the table has one. */
  function MakeResult(code: int, message: string, data: Option<seq<TranslateData>>): (r: ResultMessage)
    ensures r.code == code && r.data == data
    ensures |message| > 0 ==> r.message == message
    ensures |message| == 0 && code == 1 ==> r.message == "ok"
    ensures |message| == 0 && code == 999 ==> r.message == "错误"
    ensures |message| == 0 && code != 1 && code != 999 ==> r.message == ""
  {
    var text := if |message| > 0 then message
      else if code in ErrorMessages then ErrorMessages[code]
      else "";
    ResultMessage(code, text, data)
  }

  /** The envelope's message is empty exactly when the caller gave none and
      the code has no default. */
  lemma MessageEmptyIff(code: int, message: string, data: Option<seq<TranslateData>>)
    ensures MakeResult(code, message, data).message == "" <==> message == "" && code !in ErrorMessages
  {
    if message == "" && code in ErrorMessages {
      assert code == 1 || code == 999;
    }
  }
}
