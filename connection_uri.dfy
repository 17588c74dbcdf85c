/**
 * The connection URI handed to the database library, built from the
 * driver, database, username, password, host and port options.
 */
module DbConnection {
  import opened Wrappers
  import opened JsValues

  /** The `db` section of the options object. */
  datatype DbOptions = DbOptions(
    driver: JsValue,
    database: JsValue,
    username: JsValue,
    password: JsValue,
    host: JsValue,
    port: JsValue)

  /** The file-based engine, written `driver:database`. */
  const Sqlite: string := "sqlite"

  /** The client/server engines, written `driver://[user[:pass]@]host[:port]/database`. */
  const ServerDrivers: set<string> := {"mysql", "postgres", "mariadb", "mssql"}

  /** The `switch` compares with `===`, so only strings select a case. */
  predicate IsServerDriver(driver: JsValue) {
    driver.Text? && driver.s in ServerDrivers
  }

  predicate IsRecognisedDriver(driver: JsValue) {
    driver == Text(Sqlite) || IsServerDriver(driver)
  }

  /** `user@` or `user:pass@` when the username is truthy, otherwise nothing. */
  function Credentials(db: DbOptions): string {
    if Truthy(db.username) then
      Display(db.username) + (if Truthy(db.password) then ":" + Display(db.password) else "") + "@"
    else ""
  }

  /** `:port` when the port is truthy, otherwise nothing. */
  function PortPart(db: DbOptions): string {
    if Truthy(db.port) then ":" + Display(db.port) else ""
  }

  /** `/database`, the end of every server URI. */
  function DatabasePart(db: DbOptions): string {
    "/" + Display(db.database)
  }

  /** `host[:port]/database`, the part after the credentials. */
  function Location(db: DbOptions): string {
    Display(db.host) + PortPart(db) + DatabasePart(db)
  }

  /** The URI the options describe; `None` where the source leaves it undefined. */
  function ConnectionUri(db: DbOptions): (uri: Option<string>)
    ensures uri.Some? <==> IsRecognisedDriver(db.driver)
  {
    if db.driver == Text(Sqlite) then
      Some(Sqlite + ":" + Display(db.database))
    else if IsServerDriver(db.driver) then
      Some(db.driver.s + "://" + Credentials(db) + Location(db))
    else
      None
  }

  /** The source's `switch`, appending one piece at a time to the URI. */
  method BuildConnectionUri(db: DbOptions) returns (uri: Option<string>)
    ensures uri == ConnectionUri(db)
  {
    uri := None;
    if db.driver == Text(Sqlite) {
      assert Display(db.driver) == Sqlite;
      uri := Some(Display(db.driver) + ":" + Display(db.database));
    } else if IsServerDriver(db.driver) {
      var u := Display(db.driver) + "://";
      ghost var head := u;
      if Truthy(db.username) {
        u := u + Display(db.username);
        if Truthy(db.password) {
          u := u + (":" + Display(db.password));
        }
        u := u + "@";
        Regroup(head, Display(db.username), if Truthy(db.password) then ":" + Display(db.password) else "", "@");
      }
      assert u == head + Credentials(db);
      u := u + Display(db.host);
      if Truthy(db.port) {
        u := u + (":" + Display(db.port));
      }
      assert u == head + Credentials(db) + Display(db.host) + PortPart(db);
      u := u + ("/" + Display(db.database));
      Regroup(head + Credentials(db), Display(db.host), PortPart(db), DatabasePart(db));
      uri := Some(u);
    }
  }

  /** For `sqlite` the URI is `sqlite:` and the database name; credentials,
      host and port play no part in it. */
  lemma SqliteUriIgnoresServerOptions(db: DbOptions, other: DbOptions)
    requires db.driver == Text(Sqlite) && other.driver == Text(Sqlite)
    requires other.database == db.database
    ensures ConnectionUri(db) == ConnectionUri(other) == Some("sqlite:" + Display(db.database))
  {
    assert Sqlite + ":" == "sqlite:";
  }

  /** For a server driver the URI starts with `driver://`, ends with
      `/database`, and the host comes right after the credentials. */
  lemma ServerUriShape(db: DbOptions)
    requires IsServerDriver(db.driver)
    ensures var u := ConnectionUri(db).value;
            var head := db.driver.s + "://";
            var tail := "/" + Display(db.database);
            var start := |head| + |Credentials(db)|;
            && |head| + |tail| <= |u|
            && u[..|head|] == head
            && u[|u| - |tail|..] == tail
            && start + |Display(db.host)| <= |u|
            && u[start..start + |Display(db.host)|] == Display(db.host)
  {
    SpliceShape(db.driver.s + "://", Credentials(db), Display(db.host), PortPart(db), DatabasePart(db));
  }

  /** The credentials are written if and only if the username is truthy:
      then `user` (and `:pass` when the password is truthy too) and `@`
      are inserted right after `driver://`; otherwise the password is
      never written, whatever it is. */
  lemma CredentialsIffUsername(db: DbOptions, password: JsValue)
    requires IsServerDriver(db.driver)
    ensures var u := ConnectionUri(db).value;
            var bare := ConnectionUri(db.(username := Undefined)).value;
            var k := |db.driver.s| + 3;
            && k <= |bare|
            && u == bare[..k] + Credentials(db) + bare[k..]
            && (Truthy(db.username) ==>
                  Credentials(db) == Display(db.username)
                                     + (if Truthy(db.password) then ":" + Display(db.password) else "")
                                     + "@")
            && (!Truthy(db.username) ==>
                  u == bare && ConnectionUri(db.(password := password)).value == u)
  {
    var head := db.driver.s + "://";
    assert Location(db.(username := Undefined)) == Location(db);
    assert Location(db.(password := password)) == Location(db);
    SpliceAfterHead(head, Credentials(db), Location(db));
  }

  /** `:port` is written after the host, just before `/database`, if and
      only if the port is truthy. */
  lemma PortIffTruthy(db: DbOptions)
    requires IsServerDriver(db.driver)
    ensures var u := ConnectionUri(db).value;
            var bare := ConnectionUri(db.(port := Undefined)).value;
            var tail := "/" + Display(db.database);
            && |tail| <= |bare|
            && (Truthy(db.port) ==> u == bare[..|bare| - |tail|] + (":" + Display(db.port)) + tail)
            && (u == bare <==> !Truthy(db.port))
  {
    var head := db.driver.s + "://" + Credentials(db);
    assert Credentials(db.(port := Undefined)) == Credentials(db);
    assert PortPart(db.(port := Undefined)) == "";
    SpliceBeforeTail(head, Display(db.host), PortPart(db), DatabasePart(db));
  }

  /** A truthy password appears, as `:pass` before `@`, exactly when the
      username is truthy as well. */
  lemma PasswordNeedsUsername(db: DbOptions)
    requires IsServerDriver(db.driver)
    ensures var u := ConnectionUri(db).value;
            var noPass := ConnectionUri(db.(password := Undefined)).value;
            u == noPass <==> !(Truthy(db.username) && Truthy(db.password))
  {
    var cred := Credentials(db);
    var cred0 := Credentials(db.(password := Undefined));
    assert Location(db.(password := Undefined)) == Location(db);
    if Truthy(db.username) && Truthy(db.password) {
      assert |cred| > |cred0|;
    }
    SpliceMiddle(db.driver.s + "://", cred, cred0, Location(db));
  }

  // Facts about strings put together from parts, stated apart from the
  // options so that the lemmas above only have to name the parts.

  lemma SpliceShape(head: string, cred: string, host: string, port: string, tail: string)
    ensures var u := head + cred + (host + port + tail);
            && |head| + |tail| <= |u|
            && u[..|head|] == head
            && u[|u| - |tail|..] == tail
            && |head| + |cred| + |host| <= |u|
            && u[|head| + |cred|..|head| + |cred| + |host|] == host
  {
    var u := head + cred + (host + port + tail);
    assert u == (head + cred + host + port) + tail;
    assert u == head + (cred + host + port + tail);
    assert u == (head + cred) + host + (port + tail);
  }

  lemma SpliceAfterHead(head: string, cred: string, rest: string)
    ensures var bare := head + "" + rest;
            && |head| <= |bare|
            && head + cred + rest == bare[..|head|] + cred + bare[|head|..]
  {
    var bare := head + "" + rest;
    assert bare[..|head|] == head && bare[|head|..] == rest;
  }

  lemma SpliceBeforeTail(head: string, host: string, port: string, tail: string)
    ensures var u := head + (host + port + tail);
            var bare := head + (host + "" + tail);
            && |tail| <= |bare|
            && u == bare[..|bare| - |tail|] + port + tail
            && (u == bare <==> port == "")
  {
    var bare := head + (host + "" + tail);
    assert bare == (head + host) + tail;
    assert bare[..|bare| - |tail|] == head + host;
    assert head + (host + port + tail) == (head + host) + port + tail;
    if port != "" {
      assert |head + (host + port + tail)| > |bare|;
    }
  }

  lemma SpliceMiddle(head: string, mid: string, mid0: string, tail: string)
    ensures head + mid + tail == head + mid0 + tail <==> mid == mid0
  {
    if head + mid + tail == head + mid0 + tail {
      assert (head + mid + tail)[|head|..|head| + |mid|] == mid;
      assert |mid| == |mid0|;
      assert (head + mid0 + tail)[|head|..|head| + |mid0|] == mid0;
    }
  }

  lemma Regroup(a: string, b: string, c: string, d: string)
    ensures a + b + c + d == a + (b + c + d)
  {
  }

  /** A driver outside the five recognised names leaves the URI unset. */
  lemma UnknownDriverLeavesUriUnset(db: DbOptions)
    requires db.driver !in {Text("sqlite"), Text("mysql"), Text("postgres"), Text("mariadb"), Text("mssql")}
    ensures ConnectionUri(db) == None
  {
  }
}
