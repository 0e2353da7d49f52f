/**
 * The `encrypt` command: check the three arguments in a fixed order, then
 * hand them to the repository's EncryptFile in that method's own order.
 * The repository is a function from the call's arguments to its error.
 */
module Encrypt {
  import opened Common

  /** The repository call the command can make. */
  datatype Request = EncryptFile(inputPath: string, outputName: string, password: Bytes)

  /** The repository calls made, and the error returned. */
  datatype Outcome = Outcome(requests: seq<Request>, err: Option<Error>)

  /** `encrypt.Run(password, inputPath, outputName, repo)`. */
  function Run(password: Bytes, inputPath: string, outputName: string,
               encryptFile: (string, string, Bytes) -> Option<Error>): (r: Outcome)
    ensures |r.requests| <= 1
    ensures r.requests != [] <==> password != [] && inputPath != "" && outputName != ""
    ensures r.requests != [] ==>
              r.requests[0] == EncryptFile(inputPath, outputName, password) && r.err == encryptFile(inputPath, outputName, password)
    ensures password == [] ==> r.err == Some(Message("empty password"))
    ensures password != [] && inputPath == "" ==> r.err == Some(Message("empty input file path"))
    ensures password != [] && inputPath != "" && outputName == "" ==> r.err == Some(Message("empty output file name"))
  {
    if password == [] then Outcome([], Some(Message("empty password")))
    else if inputPath == "" then Outcome([], Some(Message("empty input file path")))
    else if outputName == "" then Outcome([], Some(Message("empty output file name")))
    else Outcome([EncryptFile(inputPath, outputName, password)], encryptFile(inputPath, outputName, password))
  }

  /** Run succeeds exactly when every argument is present and the repository call succeeds. */
  lemma RunSucceedsIff(password: Bytes, inputPath: string, outputName: string,
                       encryptFile: (string, string, Bytes) -> Option<Error>)
    ensures Run(password, inputPath, outputName, encryptFile).err == None
            <==> password != [] && inputPath != "" && outputName != "" && encryptFile(inputPath, outputName, password) == None
  {
  }

  /**
   * The password is checked first: with an empty password the outcome is
   * the same whatever the other arguments and the repository are.
   */
  lemma EmptyPasswordDecidesAlone(inputPath: string, outputName: string, otherInput: string, otherOutput: string,
                                  encryptFile: (string, string, Bytes) -> Option<Error>,
                                  otherRepository: (string, string, Bytes) -> Option<Error>)
    ensures Run([], inputPath, outputName, encryptFile) == Run([], otherInput, otherOutput, otherRepository)
  {
  }
}
