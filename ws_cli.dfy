/**
 * The `start` commands of the Tiled websocket listener and of the direct-data websocket
 * listener: both override the listener settings with the command-line options given, then
 * derive the websocket URL from the Tiled URI when none is configured. The two commands run
 * the same code on different settings sections.
 */
module WsCli {
  import opened Wrappers
  import opened PyStrings

  /** The settings fields `start` reads and writes; `None` is a field that is not set. */
  datatype Settings = Settings(uri: Option<string>, websocketUrl: Option<string>, zmqAddress: Option<string>)

  /** Python truthiness of an optional string: set and not empty. */
  predicate Given(o: Option<string>)
  {
    o.Some? && o.value != ""
  }

  /** Each option that is given replaces its setting; the others keep theirs. */
  function Override(s: Settings, tiledUrl: Option<string>, websocketUrl: Option<string>, zmqUrl: Option<string>): (r: Settings)
    ensures r.uri == (if Given(tiledUrl) then tiledUrl else s.uri)
    ensures r.websocketUrl == (if Given(websocketUrl) then websocketUrl else s.websocketUrl)
    ensures r.zmqAddress == (if Given(zmqUrl) then zmqUrl else s.zmqAddress)
  {
    Settings(if Given(tiledUrl) then tiledUrl else s.uri,
             if Given(websocketUrl) then websocketUrl else s.websocketUrl,
             if Given(zmqUrl) then zmqUrl else s.zmqAddress)
  }

  /** Applying the same options a second time changes nothing. */
  lemma OverrideIdempotent(s: Settings, tiledUrl: Option<string>, websocketUrl: Option<string>, zmqUrl: Option<string>)
    ensures var once := Override(s, tiledUrl, websocketUrl, zmqUrl);
      Override(once, tiledUrl, websocketUrl, zmqUrl) == once
  {
  }

  /** One trailing "/" is dropped. */
  function StripSlash(uri: string): string
  {
    if EndsWith(uri, "/") then uri[..|uri| - 1] else uri
  }

  /** `replace("http://", "ws://").replace("https://", "wss://")`: every occurrence, not only
      the scheme. */
  function SchemeRewrite(base: string): string
  {
    ReplaceAll(ReplaceAll(base, "http://", "ws://"), "https://", "wss://")
  }

  /** The websocket URL derived from the Tiled URI. */
  function DeriveWebsocketUrl(uri: string): string
  {
    SchemeRewrite(StripSlash(uri)) + "/stream"
  }

  /** Lines 35-43 (36-42 in the direct listener): the settings after the derivation, or the
      error `uri.endswith` raises when the URI is not set. */
  function Derive(s: Settings): (r: Result<Settings>)
    ensures r.Raised? <==> !Given(s.websocketUrl) && s.uri.None?
    ensures r.Raised? ==> r.exc == AttributeError
    ensures r.Ok? ==> Given(r.value.websocketUrl) && r.value.uri == s.uri && r.value.zmqAddress == s.zmqAddress
    ensures r.Ok? && Given(s.websocketUrl) ==> r.value == s
  {
    if Given(s.websocketUrl) then Ok(s)
    else if s.uri.None? then Raised(AttributeError)
    else Ok(s.(websocketUrl := Some(DeriveWebsocketUrl(s.uri.value))))
  }

  /** Deriving again from derived settings changes nothing. */
  lemma DeriveIdempotent(s: Settings)
    requires Derive(s).Ok?
    ensures Derive(Derive(s).value) == Derive(s)
  {
  }

  /** A websocket URL given on the command line is used as it is, whatever the Tiled URL. */
  lemma OptionUrlWins(s: Settings, tiledUrl: Option<string>, websocketUrl: Option<string>, zmqUrl: Option<string>)
    requires Given(websocketUrl)
    ensures Derive(Override(s, tiledUrl, websocketUrl, zmqUrl)).Ok?
    ensures Derive(Override(s, tiledUrl, websocketUrl, zmqUrl)).value.websocketUrl == websocketUrl
  {
  }

  /** With no websocket URL configured or given, the URL comes from the Tiled URL given on the
      command line rather than from the configured URI: the overrides happen first. */
  lemma TiledUrlOptionDerives(s: Settings, tiledUrl: Option<string>, websocketUrl: Option<string>, zmqUrl: Option<string>)
    requires !Given(websocketUrl) && !Given(s.websocketUrl) && Given(tiledUrl)
    ensures Derive(Override(s, tiledUrl, websocketUrl, zmqUrl))
      == Ok(Settings(tiledUrl, Some(DeriveWebsocketUrl(tiledUrl.value)), Override(s, tiledUrl, websocketUrl, zmqUrl).zmqAddress))
  {
  }

  lemma NoHttpInHttps(host: string)
    requires !Contains(host, "http://")
    ensures !Contains("https://" + host, "http://")
  {
    var sub := "http://";
    var s := "https://" + host;
    ContainsIff(s, sub);
    ContainsIff(host, sub);
    OccursInSuffix("https://", host, sub);
    NoOccurrenceFromPrefix("ttps://", host, sub);
    assert s[1..] == "ttps://" + host;
    OccursShift(s, sub);
    forall i | 0 <= i
      ensures !OccursAt(s, sub, i)
    {
      if i == 0 {
        assert s[4] == 's';
      } else if i < 8 {
        assert !OccursAt(s[1..], sub, i - 1);
      } else {
        assert !OccursAt(host, sub, i - 8);
        assert OccursAt("https://" + host, sub, |"https://"| + (i - 8)) <==> OccursAt(host, sub, i - 8);
      }
    }
  }

  /** A URL of scheme "http" becomes one of scheme "ws". */
  lemma HttpRewrite(host: string)
    requires !Contains(host, "http://") && !Contains(host, "https://")
    ensures SchemeRewrite("http://" + host) == "ws://" + host
  {
    ReplacePrefix(host, "http://", "ws://");
    ReplaceAbsent(host, "http://", "ws://");
    var sub := "https://";
    var s := "ws://" + host;
    ContainsIff(s, sub);
    ContainsIff(host, sub);
    OccursInSuffix("ws://", host, sub);
    NoOccurrenceFromPrefix("ws://", host, sub);
    forall i | 5 <= i
      ensures !OccursAt(s, sub, i)
    {
      assert !OccursAt(host, sub, i - 5);
      assert OccursAt("ws://" + host, sub, |"ws://"| + (i - 5)) <==> OccursAt(host, sub, i - 5);
    }
    ReplaceAbsent(s, sub, "wss://");
  }

  /** A URL of scheme "https" becomes one of scheme "wss". */
  lemma HttpsRewrite(host: string)
    requires !Contains(host, "http://") && !Contains(host, "https://")
    ensures SchemeRewrite("https://" + host) == "wss://" + host
  {
    NoHttpInHttps(host);
    ReplaceAbsent("https://" + host, "http://", "ws://");
    ReplacePrefix(host, "https://", "wss://");
    ReplaceAbsent(host, "https://", "wss://");
  }

  /** A host part that does not end in "/" keeps its last character through the strip; one
      trailing "/" after it is dropped. */
  lemma StripSlashOnce(base: string)
    requires |base| > 0 && base[|base| - 1] != '/'
    ensures StripSlash(base) == base && StripSlash(base + "/") == base
  {
    assert base[|base| - 1..] == [base[|base| - 1]];
    assert (base + "/")[..|base|] == base;
  }

  /** "http://host" and "http://host/" give "ws://host/stream". */
  lemma DeriveHttp(host: string, slash: bool)
    requires !Contains(host, "http://") && !Contains(host, "https://")
    requires |host| > 0 && host[|host| - 1] != '/'
    ensures DeriveWebsocketUrl("http://" + host + (if slash then "/" else "")) == "ws://" + host + "/stream"
  {
    StripSlashOnce("http://" + host);
    assert "http://" + host + "/" == ("http://" + host) + "/";
    assert "http://" + host + "" == "http://" + host;
    HttpRewrite(host);
  }

  /** "https://host" and "https://host/" give "wss://host/stream". */
  lemma DeriveHttps(host: string, slash: bool)
    requires !Contains(host, "http://") && !Contains(host, "https://")
    requires |host| > 0 && host[|host| - 1] != '/'
    ensures DeriveWebsocketUrl("https://" + host + (if slash then "/" else "")) == "wss://" + host + "/stream"
  {
    StripSlashOnce("https://" + host);
    assert "https://" + host + "/" == ("https://" + host) + "/";
    assert "https://" + host + "" == "https://" + host;
    HttpsRewrite(host);
  }

  /** A URI with neither "http://" nor "https://" in it only loses one trailing "/" and gains
      "/stream". */
  lemma DeriveOtherScheme(uri: string)
    requires !Contains(uri, "http://") && !Contains(uri, "https://")
    ensures DeriveWebsocketUrl(uri) == StripSlash(uri) + "/stream"
  {
    var base := StripSlash(uri);
    assert !Contains(base, "http://") && !Contains(base, "https://") by {
      ContainsIff(base, "http://");
      ContainsIff(base, "https://");
      ContainsIff(uri, "http://");
      ContainsIff(uri, "https://");
      forall sub: string, i | OccursAt(base, sub, i)
        ensures OccursAt(uri, sub, i)
      {
        assert uri[i..i + |sub|] == base[i..i + |sub|];
      }
    }
    ReplaceAbsent(base, "http://", "ws://");
    ReplaceAbsent(base, "https://", "wss://");
  }

  /** The documented example: "http://h:8000/" gives "ws://h:8000/stream". */
  lemma DeriveExample()
    ensures DeriveWebsocketUrl("http://" + "h:8000" + "/") == "ws://" + "h:8000" + "/stream"
  {
    var host := "h:8000";
    assert Find(host, "http://") == None;
    assert Find(host, "https://") == None;
    DeriveHttp(host, true);
  }

  /** The listener's settings section, which `start` updates in place. */
  class ListenerSettings {
    var uri: Option<string>
    var websocketUrl: Option<string>
    var zmqAddress: Option<string>

    constructor (s: Settings)
      ensures Value() == s
    {
      uri, websocketUrl, zmqAddress := s.uri, s.websocketUrl, s.zmqAddress;
    }

    function Value(): Settings
      reads this
    {
      Settings(uri, websocketUrl, zmqAddress)
    }

    /** Lines 27-43 of `start` (27-42 in the direct listener): the overrides, then the
        derivation; on the error the overrides have already been written. */
    method Start(tiledUrl: Option<string>, websocketUrlOption: Option<string>, zmqUrl: Option<string>)
      returns (r: Result<()>)
      modifies this
      ensures var configured := Override(old(Value()), tiledUrl, websocketUrlOption, zmqUrl);
        match Derive(configured)
        case Ok(s) => r == Ok(()) && Value() == s
        case Raised(e) => r == Raised(e) && Value() == configured
    {
      if Given(tiledUrl) {
        uri := tiledUrl;
      }
      if Given(websocketUrlOption) {
        websocketUrl := websocketUrlOption;
      }
      if Given(zmqUrl) {
        zmqAddress := zmqUrl;
      }
      ghost var configured := Value();
      assert configured == Override(old(Value()), tiledUrl, websocketUrlOption, zmqUrl);
      if !Given(websocketUrl) {
        if uri.None? {
          return Raised(AttributeError);
        }
        var baseUrl := uri.value;
        if EndsWith(baseUrl, "/") {
          baseUrl := baseUrl[..|baseUrl| - 1];
        }
        assert baseUrl == StripSlash(configured.uri.value);
        websocketUrl := Some(ReplaceAll(ReplaceAll(baseUrl, "http://", "ws://"), "https://", "wss://") + "/stream");
        assert Value() == Derive(configured).value;
      }
      return Ok(());
    }
  }
}
