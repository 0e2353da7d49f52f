/**
 * The `login` command: post the configured credentials to "/login",
 * decode the token from the reply, and save it in the token repository
 * under the user's name.
 */
module Login {
  import opened Common
  import FileStore

  /** The two fields of the client configuration the command reads. */
  datatype EnvConfig = EnvConfig(username: string, password: string)

  /** The JSON body of the request: `{"username": ..., "password": ...}`. */
  datatype Credentials = Credentials(username: string, password: string)

  datatype Request = Post(endpoint: string, body: Credentials)

  /** The HTTP client's Post: `reply` fixes the body or error the server answers with. */
  class Server {
    const reply: (string, Credentials) -> Result<Bytes>
    var requests: seq<Request>

    constructor (reply: (string, Credentials) -> Result<Bytes>)
      ensures this.reply == reply && requests == []
    {
      this.reply := reply;
      requests := [];
    }

    method Post(endpoint: string, body: Credentials) returns (r: Result<Bytes>)
      modifies this
      ensures requests == old(requests) + [Request.Post(endpoint, body)] && r == reply(endpoint, body)
    {
      requests := requests + [Request.Post(endpoint, body)];
      r := reply(endpoint, body);
    }
  }

  /**
   * `login.Run(cfg, repo, http)`. `extractToken` is ExtractToken, the JSON
   * decoding of the reply; the token is saved as the entry named after the
   * user.
   */
  method Run(cfg: EnvConfig, repo: FileStore.FileSystemRepository, http: Server, extractToken: Bytes -> Result<Bytes>)
    returns (err: Option<Error>)
    modifies repo, http
    ensures var body := Credentials(cfg.username, cfg.password);
            http.requests == old(http.requests) + [Request.Post("/login", body)]
    ensures var reply := http.reply("/login", Credentials(cfg.username, cfg.password));
            reply.Err? ==> err == Some(reply.error) && repo.entries == old(repo.entries)
    ensures var reply := http.reply("/login", Credentials(cfg.username, cfg.password));
            reply.Ok? && extractToken(reply.value).Err? ==>
              err == Some(extractToken(reply.value).error) && repo.entries == old(repo.entries)
    ensures var reply := http.reply("/login", Credentials(cfg.username, cfg.password));
            reply.Ok? && extractToken(reply.value).Ok? && FileStore.IsDirectory(old(repo.entries), cfg.username) ==>
              err == Some(PathError("open", repo.GetPath(cfg.username))) && repo.entries == old(repo.entries)
    ensures var reply := http.reply("/login", Credentials(cfg.username, cfg.password));
            reply.Ok? && extractToken(reply.value).Ok? && !FileStore.IsDirectory(old(repo.entries), cfg.username) ==>
              err == None
              && repo.entries == old(repo.entries)[cfg.username := FileStore.Regular(extractToken(reply.value).value)]
  {
    var postData := Credentials(cfg.username, cfg.password);
    var response := http.Post("/login", postData);
    if response.Err? {
      return Some(response.error);
    }
    var token := extractToken(response.value);
    if token.Err? {
      return Some(token.error);
    }
    err := repo.Save(cfg.username, FileStore.Reader(token.value, None));
  }

  /**
   * A successful login can be read back: the token repository then holds
   * the decoded token under the user's name.
   */
  method LoginThenRead(cfg: EnvConfig, repo: FileStore.FileSystemRepository, http: Server,
                       extractToken: Bytes -> Result<Bytes>)
    returns (err: Option<Error>, stored: Result<Bytes>)
    modifies repo, http
    ensures err == None ==>
              var reply := http.reply("/login", Credentials(cfg.username, cfg.password));
              reply.Ok? && extractToken(reply.value).Ok? && stored == Ok(extractToken(reply.value).value)
  {
    err := Run(cfg, repo, http, extractToken);
    stored := repo.GetFileContent(cfg.username);
  }
}
