/**
 * The `card` command: store a payment card in the vault. It names the
 * entry after the card number with its spaces removed, writes the card as
 * JSON to a file in the temporary directory, and asks the repository to
 * encrypt that file into the vault under the same name.
 */
module Card {
  import opened Common
  import Paths
  import FileStore

  /** The JSON document written for a card. */
  datatype CardJson = CardJson(number: string, date: string, cvv: string)

  /** `strings.ReplaceAll(s, " ", "")`. */
  function RemoveSpaces(s: string): (t: string)
    ensures ' ' !in t
    ensures multiset(t) == multiset(s)[' ' := 0]
  {
    if s == [] then []
    else
      assert s == [s[0]] + s[1..];
      (if s[0] == ' ' then [] else [s[0]]) + RemoveSpaces(s[1..])
  }

  /** Removing spaces works piecewise. */
  lemma {:induction false} RemoveSpacesAppend(a: string, b: string)
    ensures RemoveSpaces(a + b) == RemoveSpaces(a) + RemoveSpaces(b)
  {
    if a != [] {
      assert (a + b)[1..] == a[1..] + b;
      RemoveSpacesAppend(a[1..], b);
    } else {
      assert a + b == b;
    }
  }

  /** A string without spaces is left as it is. */
  lemma {:induction false} RemoveSpacesKeepsSpaceFree(s: string)
    requires ' ' !in s
    ensures RemoveSpaces(s) == s
  {
    if s != [] {
      assert s[0] in s;
      assert forall c :: c in s[1..] ==> c in s;
      RemoveSpacesKeepsSpaceFree(s[1..]);
      assert s == [s[0]] + s[1..];
    }
  }

  /** Removing spaces a second time changes nothing. */
  lemma RemoveSpacesIdempotent(s: string)
    ensures RemoveSpaces(RemoveSpaces(s)) == RemoveSpaces(s)
  {
    RemoveSpacesKeepsSpaceFree(RemoveSpaces(s));
  }

  /** The vault entry name for a card: "card_" + the number without spaces + ".json". */
  function FileName(number: string): (name: string)
    ensures |name| == |RemoveSpaces(number)| + 10
    ensures name[..5] == "card_" && name[|name| - 5..] == ".json"
    ensures name[5..|name| - 5] == RemoveSpaces(number)
  {
    var digits := RemoveSpaces(number);
    var name := "card_" + digits + ".json";
    assert name[..5] == "card_";
    assert name[5..|name| - 5] == digits;
    assert name[|name| - 5..] == ".json";
    name
  }

  /**
   * Two card numbers get the same entry name exactly when they agree once
   * spaces are removed, so a number typed with different spacing replaces
   * the earlier entry.
   */
  lemma FileNameSameIff(a: string, b: string)
    ensures FileName(a) == FileName(b) <==> RemoveSpaces(a) == RemoveSpaces(b)
  {
    if FileName(a) == FileName(b) {
      var n := FileName(a);
      assert RemoveSpaces(a) == n[5..|n| - 5] == RemoveSpaces(b);
    }
  }

  /** A call the command makes to the repository, with what `inputPath` held at that moment. */
  datatype Request = EncryptFile(inputPath: string, outputName: string, password: Bytes, input: Option<Bytes>)

  /** The repository as the command sees it: only EncryptFile, whose error `answer` fixes. */
  class Vault {
    const answer: (string, string, Bytes) -> Option<Error>
    var requests: seq<Request>

    constructor (answer: (string, string, Bytes) -> Option<Error>)
      ensures this.answer == answer && requests == []
    {
      this.answer := answer;
      requests := [];
    }

    method EncryptFile(disk: FileStore.Disk, inputPath: string, outputName: string, password: Bytes)
      returns (err: Option<Error>)
      modifies this
      ensures requests == old(requests) + [Request.EncryptFile(inputPath, outputName, password,
                                             if inputPath in disk.files then Some(disk.files[inputPath]) else None)]
      ensures err == answer(inputPath, outputName, password)
    {
      var input := if inputPath in disk.files then Some(disk.files[inputPath]) else None;
      requests := requests + [Request.EncryptFile(inputPath, outputName, password, input)];
      err := answer(inputPath, outputName, password);
    }
  }

  /**
   * `card.Run`. `marshal` is json.Marshal and `tempDir` is os.TempDir();
   * os.WriteFile fails when it cannot create the file.
   */
  method Run(number: string, date: string, cvv: string, password: Bytes, vault: Vault, disk: FileStore.Disk,
             tempDir: string, marshal: CardJson -> Result<Bytes>)
    returns (name: string, err: Option<Error>)
    modifies vault, disk
    ensures err == None ==> name == FileName(number)
    ensures err != None ==> name == ""
    ensures var json := marshal(CardJson(number, date, cvv));
            json.Err? ==> err == Some(json.error) && disk.files == old(disk.files) && vault.requests == old(vault.requests)
    ensures var json := marshal(CardJson(number, date, cvv));
            var path := Paths.Join(tempDir, FileName(number));
            json.Ok? && path in disk.uncreatable ==>
              err == Some(PathError("open", path)) && disk.files == old(disk.files) && vault.requests == old(vault.requests)
    ensures var json := marshal(CardJson(number, date, cvv));
            var path := Paths.Join(tempDir, FileName(number));
            json.Ok? && path !in disk.uncreatable ==>
              && disk.files == old(disk.files)[path := json.value]
              && vault.requests == old(vault.requests) + [Request.EncryptFile(path, FileName(number), password, Some(json.value))]
              && err == vault.answer(path, FileName(number), password)
  {
    var card := CardJson(number, date, cvv);
    var filename := FileName(number);
    var path := Paths.Join(tempDir, filename);
    var cardJson := marshal(card);
    if cardJson.Err? {
      return "", Some(cardJson.error);
    }
    if path in disk.uncreatable {
      return "", Some(PathError("open", path));
    }
    disk.files := disk.files[path := cardJson.value];
    err := vault.EncryptFile(disk, path, filename, password);
    if err.Some? {
      return "", err;
    }
    name := filename;
  }
}
