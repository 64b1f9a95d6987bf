/** The persisted catch-up marker, "<frozen newest>:<before>" (src/ingestion/amm-poller.ts). */
module CatchupMarker {
  import opened Options

  datatype Marker = Marker(frozenNewest: string, before: string)

  function Written(m: Marker): string { m.frozenNewest + ":" + m.before }

  /** The index of the first colon, or the length. */
  function FirstColon(raw: string): (i: nat)
    ensures i <= |raw| && (i < |raw| ==> raw[i] == ':') && forall k :: 0 <= k < i ==> raw[k] != ':'
  {
    if |raw| == 0 || raw[0] == ':' then 0 else 1 + FirstColon(raw[1..])
  }

  function ParseCatchup(raw: Option<string>): Option<Marker> {
    if raw.None? || raw.value == "" then None
    else
      var s, i := raw.value, FirstColon(raw.value);
      if i == 0 || i >= |s| - 1 then None else Some(Marker(s[..i], s[i + 1..]))
  }

  /** A written marker is read back exactly when both parts are there and the first holds no
      colon, as no signature does. */
  lemma MarkerRoundTrip(m: Marker)
    ensures ParseCatchup(Some(Written(m))) == Some(m)
            <==> m.frozenNewest != "" && m.before != "" && ':' !in m.frozenNewest
  {
    var s, n := Written(m), |m.frozenNewest|;
    var i := FirstColon(s);
    assert s[n] == ':' && s[..n] == m.frozenNewest && s[n + 1..] == m.before;
    if ':' !in m.frozenNewest {
      forall k | 0 <= k < n ensures s[k] != ':' { assert s[k] == m.frozenNewest[k]; }
      assert i == n;
    } else {
      var k :| 0 <= k < n && m.frozenNewest[k] == ':';
      assert s[k] == ':';
      assert |s[..i]| < n;
    }
  }
}
