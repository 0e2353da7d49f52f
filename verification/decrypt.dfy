/**
 * The `decrypt` command: check the three arguments in a fixed order, then
 * hand them to the repository's DecryptFile, password last. The
 * repository is a function from the call's arguments to its error.
 */
module Decrypt {
  import opened Common

  /** The repository call the command can make. */
  datatype Request = DecryptFile(inputName: string, outputPath: string, password: Bytes)

  /** The repository calls made, and the error returned. */
  datatype Outcome = Outcome(requests: seq<Request>, err: Option<Error>)

  /** `decrypt.Run(password, inputName, outputPath, repo)`. */
  function Run(password: Bytes, inputName: string, outputPath: string,
               decryptFile: (string, string, Bytes) -> Option<Error>): (r: Outcome)
    ensures |r.requests| <= 1
    ensures r.requests != [] <==> password != [] && inputName != "" && outputPath != ""
    ensures r.requests != [] ==>
              r.requests[0] == DecryptFile(inputName, outputPath, password) && r.err == decryptFile(inputName, outputPath, password)
    ensures password == [] ==> r.err == Some(Message("empty password"))
    ensures password != [] && inputName == "" ==> r.err == Some(Message("empty input file name"))
    ensures password != [] && inputName != "" && outputPath == "" ==> r.err == Some(Message("empty output file path"))
  {
    if password == [] then Outcome([], Some(Message("empty password")))
    else if inputName == "" then Outcome([], Some(Message("empty input file name")))
    else if outputPath == "" then Outcome([], Some(Message("empty output file path")))
    else Outcome([DecryptFile(inputName, outputPath, password)], decryptFile(inputName, outputPath, password))
  }

  /** Run succeeds exactly when every argument is present and the repository call succeeds. */
  lemma RunSucceedsIff(password: Bytes, inputName: string, outputPath: string,
                       decryptFile: (string, string, Bytes) -> Option<Error>)
    ensures Run(password, inputName, outputPath, decryptFile).err == None
            <==> password != [] && inputName != "" && outputPath != "" && decryptFile(inputName, outputPath, password) == None
  {
  }

  /**
   * The password is checked first: with an empty password the outcome is
   * the same whatever the other arguments and the repository are.
   */
  lemma EmptyPasswordDecidesAlone(inputName: string, outputPath: string, otherInput: string, otherOutput: string,
                                  decryptFile: (string, string, Bytes) -> Option<Error>,
                                  otherRepository: (string, string, Bytes) -> Option<Error>)
    ensures Run([], inputName, outputPath, decryptFile) == Run([], otherInput, otherOutput, otherRepository)
  {
  }
}
