/** The URLs the registry publishes: what they determine, and who can publish the same one. */
module Urls {
  import opened Models

  /** `longer` is `shorter`, a dash and something more. */
  predicate DashExtends(longer: string, shorter: string) {
    shorter + "-" <= longer
  }

  /** The two are the same, or one is the other, a dash and something more. */
  predicate Meets(a: string, b: string) {
    a == b || DashExtends(a, b) || DashExtends(b, a)
  }

  /** `sub` ends in a dot and `domain`. */
  predicate SubdomainOf(sub: string, domain: string) {
    |sub| > |domain| && sub[|sub| - |domain| - 1..] == "." + domain
  }

  /** The URL of a request, mode by mode and kind by kind. */
  lemma UrlForms(d: Domain, name: string, uid: string, uuid: string)
    ensures d.kind == Standard ==> SrcUrl(d, name, uid, uuid, true) == "https://" + name + "." + d.value + "/"
    ensures d.kind == PerUser ==>
      SrcUrl(d, name, uid, uuid, true) == "https://" + (uid + "-" + name) + "." + d.value + "/"
    ensures d.kind == Ephemeral ==>
      SrcUrl(d, name, uid, uuid, true) == "https://" + (name + "-" + uuid) + "." + d.value + "/"
    ensures d.kind == Standard && name != "" && name[0] != '/' ==>
      SrcUrl(d, name, uid, uuid, false) == "https://" + d.value + ("/" + name)
    ensures d.kind == Standard && (name == "" || name[0] == '/') ==>
      SrcUrl(d, name, uid, uuid, false) == "https://" + d.value + name
    ensures d.kind == PerUser && (uid == "" || uid[0] != '/') ==>
      SrcUrl(d, name, uid, uuid, false) == "https://" + d.value + ("/" + (uid + "-" + name))
    ensures d.kind == PerUser && uid != "" && uid[0] == '/' ==>
      SrcUrl(d, name, uid, uuid, false) == "https://" + d.value + (uid + "-" + name)
    ensures d.kind == Ephemeral && (name == "" || name[0] != '/') ==>
      SrcUrl(d, name, uid, uuid, false) == "https://" + d.value + ("/" + (name + "-" + uuid))
    ensures d.kind == Ephemeral && name != "" && name[0] == '/' ==>
      SrcUrl(d, name, uid, uuid, false) == "https://" + d.value + (name + "-" + uuid)
  {
  }

  function HostUrl(app: string, value: string): string {
    "https://" + app + "." + value + "/"
  }

  lemma CancelFrame(x: string, y: string)
    requires "https://" + x + "/" == "https://" + y + "/"
    ensures x == y
  {
    var a, b := "https://" + x + "/", "https://" + y + "/";
    assert |x| == |y|;
    assert x == a[8..8 + |x|] && y == b[8..8 + |y|];
  }

  lemma LongerValueIsBelow(app: string, value: string, app': string, value': string)
    requires app + "." + value == app' + "." + value' && |value| < |value'|
    ensures SubdomainOf(value', value)
  {
    var host, n := app + "." + value, |app + "." + value|;
    assert host[n - |value'|..] == value' && host[n - |value| - 1..] == "." + value;
    assert value'[|value'| - |value| - 1..] == host[n - |value| - 1..];
  }

  lemma SameHost(app: string, value: string, app': string, value': string)
    requires HostUrl(app, value) == HostUrl(app', value')
    ensures app + "." + value == app' + "." + value'
  {
    var host, host' := app + "." + value, app' + "." + value';
    assert HostUrl(app, value) == "https://" + host + "/" && HostUrl(app', value') == "https://" + host' + "/";
    CancelFrame(host, host');
  }

  predicate Nested(value: string, value': string) {
    value == value' || SubdomainOf(value, value') || SubdomainOf(value', value)
  }

  lemma HostsNest(app: string, value: string, app': string, value': string)
    requires app + "." + value == app' + "." + value'
    ensures Nested(value, value')
  {
    if |value| < |value'| {
      LongerValueIsBelow(app, value, app', value');
    } else if |value'| < |value| {
      LongerValueIsBelow(app', value', app, value);
    } else {
      var host, host' := app + "." + value, app' + "." + value';
      assert value == host[|app| + 1..] && value' == host'[|app'| + 1..];
    }
  }

  /** Domains of which neither is below the other publish disjoint URLs. */
  lemma UrlDeterminesDomain(app: string, value: string, app': string, value': string)
    requires HostUrl(app, value) == HostUrl(app', value')
    requires !SubdomainOf(value, value') && !SubdomainOf(value', value)
    ensures app == app' && value == value'
  {
    var host, host' := app + "." + value, app' + "." + value';
    SameHost(app, value, app', value');
    HostsNest(app, value, app', value');
    assert |app| == |app'| && app == host[..|app|] && app' == host'[..|app'|];
  }

  /** Apps without a dot are the first label of their host, so their URLs tell any two domains apart. */
  lemma FirstLabelDetermines(app: string, value: string, app': string, value': string)
    requires HostUrl(app, value) == HostUrl(app', value') && '.' !in app && '.' !in app'
    ensures app == app' && value == value'
  {
    var host, host' := app + "." + value, app' + "." + value';
    SameHost(app, value, app', value');
    assert host[|app|] == '.' && host[|app'|] == '.';
    assert forall i :: 0 <= i < |app| ==> host[i] == app[i];
    assert forall i :: 0 <= i < |app'| ==> host[i] == app'[i];
    assert app == host[..|app|] && app' == host[..|app'|];
    assert value == host[|app| + 1..] && value' == host[|app'| + 1..];
  }

  /** `longer` is `shorter`, a slash and something more. */
  predicate PathExtends(longer: string, shorter: string) {
    shorter + "/" <= longer
  }

  function PathOf(app: string): string {
    if app == "" || app[0] == '/' then app else "/" + app
  }

  lemma LongerValueExtends(value: string, path: string, value': string, path': string)
    requires value + path == value' + path' && |value| < |value'| && (path == "" || path[0] == '/')
    ensures PathExtends(value', value)
  {
    var url := value + path;
    assert url == value' + path';
    assert value' == url[..|value'|];
  }

  /** In path mode the same holds of domains of which neither extends the other by a slash. */
  lemma PathDeterminesDomain(app: string, value: string, app': string, value': string)
    requires "https://" + value + PathOf(app) == "https://" + value' + PathOf(app')
    requires !PathExtends(value, value') && !PathExtends(value', value)
    ensures PathOf(app) == PathOf(app') && value == value'
  {
    var rest, rest' := value + PathOf(app), value' + PathOf(app');
    CancelScheme(value, PathOf(app), value', PathOf(app'));
    if |value| < |value'| {
      LongerValueExtends(value, PathOf(app), value', PathOf(app'));
    } else if |value'| < |value| {
      LongerValueExtends(value', PathOf(app'), value, PathOf(app));
    }
    assert value == rest[..|value|] && PathOf(app) == rest[|value|..];
    assert value' == rest'[..|value'|] && PathOf(app') == rest'[|value'|..];
  }

  lemma CancelScheme(value: string, path: string, value': string, path': string)
    requires "https://" + value + path == "https://" + value' + path'
    ensures value + path == value' + path'
  {
    assert ("https://" + value + path)[8..] == value + path;
    assert ("https://" + value' + path')[8..] == value' + path';
  }

  /** Two uids can publish one app name exactly when they are the same or one extends the other by a dash. */
  lemma AppNamesMeet(u: string, w: string)
    ensures (exists n: string, m: string :: AppName(PerUser, n, u, "") == AppName(PerUser, m, w, "")) <==> Meets(u, w)
  {
    if u == w {
      assert AppName(PerUser, "", u, "") == AppName(PerUser, "", w, "");
    }
    if DashExtends(u, w) {
      assert AppName(PerUser, "", u, "") == AppName(PerUser, u[|w| + 1..] + "-", w, "");
    }
    if DashExtends(w, u) {
      assert AppName(PerUser, w[|u| + 1..] + "-", u, "") == AppName(PerUser, "", w, "");
    }
    forall n: string, m: string | AppName(PerUser, n, u, "") == AppName(PerUser, m, w, "")
      ensures Meets(u, w)
    {
      AppNameDetermines(u, n, w, m);
    }
  }

  lemma AppNameDetermines(u: string, n: string, w: string, m: string)
    requires u + "-" + n == w + "-" + m
    ensures (u == w && n == m) || DashExtends(u, w) || DashExtends(w, u)
  {
    var app := u + "-" + n;
    assert app[..|u|] == u && app[..|w|] == w;
    assert app[..|u| + 1] == u + "-" && app[..|w| + 1] == w + "-";
    if |u| == |w| {
      assert app[|u| + 1..] == n && app[|w| + 1..] == m;
    } else if |u| < |w| {
      assert w[..|u| + 1] == app[..|u| + 1];
    } else {
      assert u[..|w| + 1] == app[..|w| + 1];
    }
  }

  /** In an ephemeral domain two UUIDs of one length never publish the same URL, whatever the names. */
  lemma EphemeralUrlsDiffer(domain: Domain, bind: bool, n: string, u: string, x: string, m: string, w: string,
      y: string)
    requires domain.kind == Ephemeral && |x| == |y|
    requires SrcUrl(domain, n, u, x, bind) == SrcUrl(domain, m, w, y, bind)
    ensures x == y && (bind ==> n == m)
  {
    var app, app' := AppName(Ephemeral, n, u, x), AppName(Ephemeral, m, w, y);
    if bind {
      var host, host' := app + "." + domain.value, app' + "." + domain.value;
      assert SrcUrl(domain, n, u, x, bind) == "https://" + host + "/";
      assert SrcUrl(domain, m, w, y, bind) == "https://" + host' + "/";
      CancelFrame(host, host');
      assert app == host[..|app|] && app' == host'[..|app'|];
      assert n == app[..|n|] && m == app'[..|n|];
      assert x == app[|n| + 1..] && y == app'[|n| + 1..];
    } else {
      var url, url' := SrcUrl(domain, n, u, x, bind), SrcUrl(domain, m, w, y, bind);
      assert x == url[|url| - |x|..] && y == url'[|url'| - |y|..];
    }
  }

  // ---------------------------------------------------------------- who can publish the same URL

  lemma PrefixesMeet(a: string, b: string, url: string)
    requires a + "-" <= url && b + "-" <= url
    ensures Meets(a, b)
  {
    assert a == url[..|a|] && b == url[..|b|];
    if |a| < |b| {
      assert a + "-" == b[..|a| + 1];
    } else if |b| < |a| {
      assert b + "-" == a[..|b| + 1];
    }
  }

  /** Names that make two uids or paths that meet into one, the second no longer than the first allows. */
  lemma MeetingNames(a: string, b: string) returns (n: string, m: string)
    requires Meets(a, b)
    ensures a + "-" + n == b + "-" + m
    ensures |m| <= |a| - |b| || m == ""
  {
    if a == b {
      n, m := "", "";
    } else if DashExtends(a, b) {
      n, m := "", a[|b| + 1..] + "-";
    } else {
      n, m := b[|a| + 1..] + "-", "";
    }
  }

  /** The text of a random UUID (RFC 9562, section 5.4), in lower case. */
  predicate UuidText(x: string) {
    && |x| == 36
    && (forall i :: 0 <= i < 36 ==>
          if i == 8 || i == 13 || i == 18 || i == 23 then x[i] == '-' else '0' <= x[i] <= '9' || 'a' <= x[i] <= 'f')
    && x[14] == '4' && x[19] in "89ab"
  }

  lemma UuidTextHasNoDot(x: string)
    requires UuidText(x)
    ensures '.' !in x
  {
  }

  /** In path mode one leading slash of an app name makes no difference. */
  function Unslashed(app: string): string {
    if app != "" && app[0] == '/' then app[1..] else app
  }

  /** What the URLs of a user in a user domain begin with in path mode, without the scheme and the dash. */
  function UserStem(value: string, uid: string): string {
    value + "/" + Unslashed(uid)
  }

  /** The labels of `sub` above `domain`. */
  function Above(sub: string, domain: string): string
    requires SubdomainOf(sub, domain)
  {
    sub[..|sub| - |domain| - 1]
  }

  /** The labels above `domain` end in a dash and a UUID: an ephemeral app of `domain` can be part of them. */
  predicate EndsInUuid(labels: string) {
    |labels| >= 37 && labels[|labels| - 37] == '-' && UuidText(labels[|labels| - 36..])
  }

  /**
   User `uid` of user domain `d` and user `other` of domain `e` have names for one URL.
   In subdomain mode one domain has to be below the other (or the same); between user domains the uids have to meet as
   well, and an ephemeral domain has to be the lower one, unless its UUID can be among the labels of the other.
   In path mode the URLs of a user begin with a stem: two stems have to meet, or the stem of `uid` goes on where `e`
   ends, or `e` goes on where the stem ends.
   */
  predicate Overlaps(bind: bool, d: Domain, uid: string, e: Domain, other: string) {
    if bind then
      match e.kind
      case PerUser => Meets(uid, other) && Nested(d.value, e.value)
      case Standard => Nested(d.value, e.value)
      case Ephemeral =>
        || d.value == e.value
        || SubdomainOf(e.value, d.value)
        || (SubdomainOf(d.value, e.value) && EndsInUuid(Above(d.value, e.value)))
    else
      match e.kind
      case PerUser => Meets(UserStem(d.value, uid), UserStem(e.value, other))
      case _ => PathExtends(UserStem(d.value, uid), e.value) || DashExtends(e.value, UserStem(d.value, uid))
  }

  /** The URL of a request in a user domain has no part drawn. */
  predicate SameUrl(bind: bool, d: Domain, uid: string, n: string, e: Domain, other: string, m: string, uuid: string) {
    SrcUrl(d, n, uid, "", bind) == SrcUrl(e, m, other, uuid, bind)
  }

  /** Two publishers can name the same URL exactly if they overlap: no condition on the names, uids or values. */
  lemma NamesMeetExactly(bind: bool, d: Domain, uid: string, e: Domain, other: string)
    requires d.kind == PerUser
    ensures (exists n, m, uuid :: UuidText(uuid) && SameUrl(bind, d, uid, n, e, other, m, uuid))
      <==> Overlaps(bind, d, uid, e, other)
  {
    forall n, m, uuid | UuidText(uuid) && SameUrl(bind, d, uid, n, e, other, m, uuid)
      ensures Overlaps(bind, d, uid, e, other)
    {
      SameUrlOverlaps(bind, d, uid, n, e, other, m, uuid);
    }
    if Overlaps(bind, d, uid, e, other) {
      var uuid := SomeUuid();
      var n, m, uuid' := OverlapNames(bind, d, uid, e, other, uuid);
    }
  }

  lemma SomeUuid() returns (uuid: string)
    ensures UuidText(uuid)
  {
    uuid := seq(36, i =>
      if i == 8 || i == 13 || i == 18 || i == 23 then '-' else if i == 14 then '4' else if i == 19 then '8' else '0');
  }

  // One URL means overlap.

  lemma SameUrlOverlaps(bind: bool, d: Domain, uid: string, n: string, e: Domain, other: string, m: string,
      uuid: string)
    requires d.kind == PerUser && UuidText(uuid) && SameUrl(bind, d, uid, n, e, other, m, uuid)
    ensures Overlaps(bind, d, uid, e, other)
  {
    if bind {
      var app, app' := uid + "-" + n, AppName(e.kind, m, other, uuid);
      SameHost(app, d.value, app', e.value);
      HostsNest(app, d.value, app', e.value);
      if e.kind == PerUser {
        var host := app + "." + d.value;
        assert uid + "-" <= host && other + "-" <= app' + "." + e.value;
        PrefixesMeet(uid, other, host);
      } else if e.kind == Ephemeral && SubdomainOf(d.value, e.value) {
        UuidAmongLabels(app, d.value, m, e.value, uuid);
      }
    } else {
      UserPath(d.value, uid, n);
      var stem := UserStem(d.value, uid);
      var app' := AppName(e.kind, m, other, uuid);
      if e.kind == PerUser {
        UserPath(e.value, other, m);
        var stem' := UserStem(e.value, other);
        CancelScheme(stem, "-" + n, stem', "-" + m);
        assert stem + "-" <= stem + ("-" + n) && stem' + "-" <= stem' + ("-" + m);
        PrefixesMeet(stem, stem', stem + ("-" + n));
      } else {
        CancelScheme(stem, "-" + n, e.value, PathOf(app'));
        StemAndPath(stem, n, e.value, PathOf(app'));
      }
    }
  }

  lemma UuidAmongLabels(app: string, value: string, m: string, value': string, uuid: string)
    requires UuidText(uuid) && SubdomainOf(value, value')
    requires app + "." + value == m + "-" + uuid + "." + value'
    ensures EndsInUuid(Above(value, value'))
  {
    var labels := Above(value, value');
    var left, right := app + "." + labels, m + "-" + uuid;
    assert value == labels + "." + value';
    assert left + ("." + value') == app + "." + value == right + ("." + value');
    assert left == (left + ("." + value'))[..|left|] && right == (right + ("." + value'))[..|right|];
    UuidTextHasNoDot(uuid);
    assert right[|m|] == '-' && forall i :: 0 <= i < 36 ==> right[|m| + 1 + i] == uuid[i];
    assert left[|app|] == '.' && labels == left[|app| + 1..];
    assert |app| < |m|;
    assert labels[|labels| - 36..] == uuid;
  }

  lemma UserPathOf(uid: string, n: string)
    ensures PathOf(uid + "-" + n) == "/" + (Unslashed(uid) + "-" + n)
  {
    assert uid != "" && uid[0] == '/' ==> uid + "-" + n == "/" + (uid[1..] + "-" + n);
  }

  lemma UserPath(value: string, uid: string, n: string)
    ensures "https://" + value + PathOf(uid + "-" + n) == "https://" + UserStem(value, uid) + ("-" + n)
  {
    assert PathOf(uid + "-" + n) == "/" + Unslashed(uid) + ("-" + n);
  }

  lemma StemAndPath(stem: string, n: string, value: string, path: string)
    requires stem + ("-" + n) == value + path && (path == "" || path[0] == '/')
    ensures PathExtends(stem, value) || DashExtends(value, stem)
  {
    var url := stem + ("-" + n);
    assert url == value + path;
    assert url[|stem|] == '-' && stem == url[..|stem|] && value == url[..|value|];
    if |value| > |stem| {
      assert stem + "-" == url[..|stem| + 1] == value[..|stem| + 1];
    } else {
      assert path != "" && url[|value|] == '/';
      assert value + "/" == url[..|value| + 1] == stem[..|value| + 1];
    }
  }

  // Overlap means one URL.

  /** What an app in domain `value` takes on, in front of its domain, so as to meet one of a domain below. */
  function Pad(value: string, value': string): (pad: string)
    ensures |pad| <= |value'|
  {
    if SubdomainOf(value', value) then "." + Above(value', value) else ""
  }

  /** Joining strings is associative; stated where the solver would have to find the split. */
  lemma Regroup(a: string, b: string, c: string)
    ensures a + b + c == a + (b + c)
  {
  }

  lemma HostRegroup(app: string, labels: string, value: string)
    ensures HostUrl(app + ("." + labels), value) == HostUrl(app, labels + "." + value)
  {
    var front := "https://" + app;
    Regroup("https://", app, "." + labels);
    Regroup(front, ".", labels);
    Regroup(front + ".", labels, ".");
    Regroup(front + ".", labels + ".", value);
  }

  lemma PadsAlign(app: string, value: string, value': string)
    requires Nested(value, value')
    ensures HostUrl(app + Pad(value, value'), value) == HostUrl(app + Pad(value', value), value')
  {
    assert app + "" == app;
    if SubdomainOf(value', value) {
      NotBelow(value', value);
      assert value' == Above(value', value) + "." + value;
      HostRegroup(app, Above(value', value), value);
    } else if SubdomainOf(value, value') {
      assert value == Above(value, value') + "." + value';
      HostRegroup(app, Above(value, value'), value');
    }
  }

  lemma UserHosts(uid: string, value: string, other: string, value': string) returns (n: string, m: string)
    requires Meets(uid, other) && Nested(value, value')
    ensures HostUrl(uid + "-" + n, value) == HostUrl(other + "-" + m, value')
    ensures |m| <= |uid| + |value|
  {
    var n0, m0 := MeetingNames(uid, other);
    var pad, pad' := Pad(value, value'), Pad(value', value);
    PadsAlign(uid + "-" + n0, value, value');
    n, m := n0 + pad, m0 + pad';
    Regroup(uid + "-", n0, pad);
    Regroup(other + "-", m0, pad');
  }

  lemma StandardHosts(uid: string, value: string, value': string) returns (n: string, m: string)
    requires Nested(value, value')
    ensures HostUrl(uid + "-" + n, value) == HostUrl(m, value')
    ensures |m| <= |uid| + |value| + 1
  {
    PadsAlign(uid + "-", value, value');
    n, m := Pad(value, value'), uid + "-" + Pad(value', value);
  }

  lemma EphemeralHosts(uid: string, value: string, value': string, uuid: string) returns (n: string, m: string)
    requires value == value' || SubdomainOf(value', value)
    ensures HostUrl(uid + "-" + n, value) == HostUrl(m + "-" + uuid, value')
    ensures |m| == |uid|
  {
    PadsAlign(uid + "-" + uuid, value, value');
    n, m := uuid + Pad(value, value'), uid;
    Regroup(uid + "-", uuid, Pad(value, value'));
    assert Pad(value', value) == "" && m + "-" + uuid + "" == m + "-" + uuid;
  }

  lemma LabelsRegroup(uid: string, front: string, uuid: string)
    ensures uid + "-." + front + "-" + uuid == uid + "-" + ("." + (front + ("-" + uuid)))
  {
    assert uid + "-." + front + "-" + uuid == uid + "-." + front + ("-" + uuid);
    assert uid + "-." + front + ("-" + uuid) == uid + "-." + (front + ("-" + uuid));
  }

  lemma NotBelow(sub: string, domain: string)
    requires SubdomainOf(sub, domain)
    ensures !SubdomainOf(domain, sub)
  {
  }

  lemma EphemeralLabels(uid: string, value: string, value': string) returns (n: string, m: string, uuid: string)
    requires SubdomainOf(value, value') && EndsInUuid(Above(value, value'))
    ensures UuidText(uuid) && HostUrl(uid + "-" + n, value) == HostUrl(m + "-" + uuid, value')
    ensures |m| <= |uid| + |value|
  {
    var labels := Above(value, value');
    var front, back := labels[..|labels| - 37], labels[|labels| - 37..];
    PadsAlign(uid + "-", value, value');
    n, m, uuid := "", uid + "-." + front, labels[|labels| - 36..];
    assert back == "-" + uuid && labels == front + back;
    LabelsRegroup(uid, front, uuid);
    NotBelow(value, value');
    assert Pad(value, value') == "" && Pad(value', value) == "." + labels;
  }

  lemma StandardPath(stem: string, value: string) returns (n: string, m: string)
    requires PathExtends(stem, value) || DashExtends(value, stem)
    ensures stem + ("-" + n) == value + PathOf(m)
    ensures |m| <= |stem| - |value| + 1 || m == ""
  {
    if PathExtends(stem, value) {
      n, m := "", stem[|value|..] + "-";
      assert m[0] == '/' && stem == value + stem[|value|..];
    } else {
      n, m := value[|stem| + 1..], "";
      assert value == stem + "-" + n;
    }
  }

  lemma EphemeralPath(stem: string, value: string, uuid: string) returns (n: string, m: string)
    requires PathExtends(stem, value) || DashExtends(value, stem)
    ensures stem + ("-" + n) == value + PathOf(m + "-" + uuid)
    ensures |m| <= |stem| - |value| || m == ""
  {
    if PathExtends(stem, value) {
      n, m := uuid, stem[|value|..];
      assert m[0] == '/' && stem == value + m;
      Regroup(value, m, "-" + uuid);
      Regroup(m, "-", uuid);
      assert PathOf(m + "-" + uuid) == m + "-" + uuid;
    } else {
      var rest := value[|stem| + 1..];
      n, m := rest + ("/-" + uuid), "";
      assert value == stem + "-" + rest;
      Regroup(stem, "-" + rest, "/-" + uuid);
      Regroup("-", rest, "/-" + uuid);
      Regroup(stem, "-", rest);
      EmptyPath(uuid);
    }
  }

  lemma EmptyPath(uuid: string)
    ensures PathOf("" + "-" + uuid) == "/-" + uuid
  {
    assert "" + "-" + uuid == "-" + uuid;
    assert PathOf("-" + uuid) == "/" + ("-" + uuid);
  }

  lemma OnePath(stem: string, tail: string, value: string, path: string)
    requires stem + tail == value + path
    ensures "https://" + stem + tail == "https://" + value + path
  {
    assert "https://" + stem + tail == "https://" + (stem + tail);
    assert "https://" + value + path == "https://" + (value + path);
  }

  /** Names for one URL, the second short enough for its column when uid and value are. */
  lemma OverlapNames(bind: bool, d: Domain, uid: string, e: Domain, other: string, uuid: string)
    returns (n: string, m: string, uuid': string)
    requires d.kind == PerUser && UuidText(uuid) && Overlaps(bind, d, uid, e, other)
    ensures UuidText(uuid') && SameUrl(bind, d, uid, n, e, other, m, uuid')
    ensures |m| <= |uid| + |d.value| + 2
  {
    if bind {
      n, m, uuid' := OverlapHosts(d, uid, e, other, uuid);
    } else {
      uuid' := uuid;
      n, m := OverlapPaths(d, uid, e, other, uuid);
    }
  }

  lemma OverlapHosts(d: Domain, uid: string, e: Domain, other: string, uuid: string)
    returns (n: string, m: string, uuid': string)
    requires d.kind == PerUser && UuidText(uuid) && Overlaps(true, d, uid, e, other)
    ensures UuidText(uuid') && SameUrl(true, d, uid, n, e, other, m, uuid')
    ensures |m| <= |uid| + |d.value| + 2
  {
    uuid' := uuid;
    match e.kind {
      case PerUser =>
        n, m := UserHosts(uid, d.value, other, e.value);
      case Standard =>
        n, m := StandardHosts(uid, d.value, e.value);
      case Ephemeral =>
        if d.value == e.value || SubdomainOf(e.value, d.value) {
          n, m := EphemeralHosts(uid, d.value, e.value, uuid);
        } else {
          n, m, uuid' := EphemeralLabels(uid, d.value, e.value);
        }
    }
  }

  lemma OverlapPaths(d: Domain, uid: string, e: Domain, other: string, uuid: string) returns (n: string, m: string)
    requires d.kind == PerUser && Overlaps(false, d, uid, e, other)
    ensures SameUrl(false, d, uid, n, e, other, m, uuid)
    ensures |m| <= |uid| + |d.value| + 2
  {
    var stem := UserStem(d.value, uid);
    match e.kind {
      case PerUser =>
        n, m := MeetingNames(stem, UserStem(e.value, other));
        assert stem + ("-" + n) == stem + "-" + n;
        assert UserStem(e.value, other) + ("-" + m) == UserStem(e.value, other) + "-" + m;
        OnePath(stem, "-" + n, UserStem(e.value, other), "-" + m);
        UserPath(e.value, other, m);
      case Standard =>
        n, m := StandardPath(stem, e.value);
        OnePath(stem, "-" + n, e.value, PathOf(m));
      case Ephemeral =>
        n, m := EphemeralPath(stem, e.value, uuid);
        OnePath(stem, "-" + n, e.value, PathOf(m + "-" + uuid));
    }
    UserPath(d.value, uid, n);
  }
}
