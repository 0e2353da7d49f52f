/**
 * `MemoryRepository`: tokens kept in a map from user name to token,
 * updated in place. The read/write lock is left out: calls are sequential.
 */
module MemStore {
  import opened Common

  class MemoryRepository {
    var tokens: map<string, string>

    /** NewMemoryRepository: an empty token map. */
    constructor ()
      ensures tokens == map[]
    {
      tokens := map[];
    }

    /** Store the token, replacing any earlier one for the same user. Never fails. */
    method Save(user: string, token: string) returns (err: Option<Error>)
      modifies this
      ensures err == None
      ensures user in tokens && tokens[user] == token
      ensures forall u :: u != user ==> (u in tokens <==> u in old(tokens)) && (u in tokens ==> tokens[u] == old(tokens)[u])
      ensures tokens == old(tokens)[user := token]
    {
      tokens := tokens[user := token];
      err := None;
    }

    /** Forget the user's token; an absent user is not an error and changes nothing. */
    method Delete(user: string) returns (err: Option<Error>)
      modifies this
      ensures err == None
      ensures user !in tokens
      ensures user !in old(tokens) ==> tokens == old(tokens)
      ensures tokens == old(tokens) - {user}
    {
      tokens := tokens - {user};
      err := None;
    }

    /** The user's token, or "" together with ErrTokenNotFound. */
    method Get(user: string) returns (token: string, err: Option<Error>)
      ensures user in tokens ==> token == tokens[user] && err == None
      ensures user !in tokens ==> token == "" && err == Some(TokenNotFound)
    {
      if user !in tokens {
        return "", Some(TokenNotFound);
      }
      token, err := tokens[user], None;
    }
  }

  /** Save, then Get for the same user: the saved token comes back. */
  method SaveThenGet(r: MemoryRepository, user: string, token: string) returns (got: string, err: Option<Error>)
    modifies r
    ensures got == token && err == None
  {
    var _ := r.Save(user, token);
    got, err := r.Get(user);
  }

  /** Two saves for one user: the last one wins. */
  method SaveTwiceThenGet(r: MemoryRepository, user: string, first: string, second: string)
    returns (got: string, err: Option<Error>)
    modifies r
    ensures got == second && err == None
  {
    var _ := r.Save(user, first);
    var _ := r.Save(user, second);
    got, err := r.Get(user);
  }

  /** Save, Delete, then Get: the token is gone. */
  method SaveDeleteThenGet(r: MemoryRepository, user: string, token: string) returns (got: string, err: Option<Error>)
    modifies r
    ensures got == "" && err == Some(TokenNotFound)
  {
    var _ := r.Save(user, token);
    var _ := r.Delete(user);
    got, err := r.Get(user);
  }
}
