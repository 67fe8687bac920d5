/**
 * The credential identity of a client: `Nobody`, the anonymous identity used
 * before a node is registered, or `Device`, bound to a node. The inner
 * credential values and what the client library does with them (loading them,
 * their TLS configuration, rune, node id and byte form, the upgrade through
 * the scheduler and signer) are not part of this model; they enter as type
 * parameters `N` (nobody) and `D` (device) and as function parameters.
 */
module Credentials {
  import opened Results

  type Bytes = seq<bv8>

  /** `credentials::Error`: the wrong-identity error raised here, or whatever a collaborator reports. */
  datatype Error = IsIdentityError(message: string) | CollaboratorError(message: string)

  /** `UnifiedCredentials<T, R>`: exactly one of the two identities. */
  datatype UnifiedCredentials<N, D> = Nobody(nobody: N) | Device(device: D) {

    /** `ensure_nobody`: succeeds on `Nobody`, a wrong-identity error otherwise. */
    function EnsureNobody(): (r: Result<(), Error>)
      ensures r.Ok? <==> Nobody?
      ensures r.Err? ==> r.error == IsIdentityError("credentials are not of type nobody")
    {
      if Nobody? then Ok(()) else Err(IsIdentityError("credentials are not of type nobody"))
    }

    /** `ensure_device`: succeeds on `Device`, a wrong-identity error otherwise. */
    function EnsureDevice(): (r: Result<(), Error>)
      ensures r.Ok? <==> Device?
      ensures r.Err? ==> r.error == IsIdentityError("credentials are not of type device")
    {
      if Device? then Ok(()) else Err(IsIdentityError("credentials are not of type device"))
    }

    /** `tls_config`: the held identity's own TLS configuration. */
    function TlsConfig<T>(ofNobody: N -> T, ofDevice: D -> T): (t: T)
      ensures Nobody? ==> t == ofNobody(nobody)
      ensures Device? ==> t == ofDevice(device)
    {
      match this
      case Nobody(n) => ofNobody(n)
      case Device(d) => ofDevice(d)
    }

    /** `rune`: the device's rune; reaching it on `Nobody` is a panic, so it is required away. */
    function Rune(ofDevice: D -> string): (rune: string)
      requires Device?
      ensures rune == ofDevice(device)
    {
      ofDevice(device)
    }

    /** `node_id`: the device's node id; a panic on `Nobody`, required away. */
    function NodeId(ofDevice: D -> Result<Bytes, Error>): (r: Result<Bytes, Error>)
      requires Device?
      ensures r == ofDevice(device)
    {
      ofDevice(device)
    }
  }

  /** For any credentials exactly one of the two guards succeeds, and the device guard is what licenses the device accessors. */
  lemma ExactlyOneGuard<N, D>(c: UnifiedCredentials<N, D>)
    ensures c.EnsureNobody().Ok? != c.EnsureDevice().Ok?
    ensures c.EnsureDevice().Ok? <==> c.Device?
  {
  }

  /** The Python-facing `Credentials`, wrapping one identity. */
  datatype Credentials<N, D> = Credentials(inner: UnifiedCredentials<N, D>) {

    function EnsureDevice(): (r: Result<(), Error>)
      ensures r == inner.EnsureDevice()
      ensures r.Ok? <==> inner.Device?
    {
      inner.EnsureDevice()
    }

    function EnsureNobody(): (r: Result<(), Error>)
      ensures r == inner.EnsureNobody()
      ensures r.Ok? <==> inner.Nobody?
    {
      inner.EnsureNobody()
    }

    /** `node_id`: unguarded, so it panics on `Nobody`; required away. */
    function NodeId(ofDevice: D -> Result<Bytes, Error>): (r: Result<Bytes, Error>)
      requires inner.Device?
      ensures r == ofDevice(inner.device)
    {
      inner.NodeId(ofDevice)
    }
  }

  /** `Credentials::new`: the library's default nobody identity. */
  function New<N, D>(defaultNobody: N): (c: Credentials<N, D>)
    ensures c.inner == Nobody(defaultNobody)
  {
    Credentials(Nobody(defaultNobody))
  }

  /** `Credentials::nobody_with(cert, key)`. */
  function NobodyWith<N, D>(cert: Bytes, key: Bytes, nobodyWith: (Bytes, Bytes) -> N): (c: Credentials<N, D>)
    ensures c.inner == Nobody(nobodyWith(cert, key))
  {
    Credentials(Nobody(nobodyWith(cert, key)))
  }

  /** `Credentials::from_path(path)`: the device identity the library loads from `path`. */
  function FromPath<N, D>(path: string, deviceFromPath: string -> D): (c: Credentials<N, D>)
    ensures c.inner == Device(deviceFromPath(path))
  {
    Credentials(Device(deviceFromPath(path)))
  }

  /** `Credentials::from_bytes(data)`. */
  function FromBytes<N, D>(data: Bytes, deviceFromBytes: Bytes -> D): (c: Credentials<N, D>)
    ensures c.inner == Device(deviceFromBytes(data))
  {
    Credentials(Device(deviceFromBytes(data)))
  }

  /** `Credentials::from_parts(cert, key, rune)`. */
  function FromParts<N, D>(cert: Bytes, key: Bytes, rune: string, deviceWith: (Bytes, Bytes, string) -> D): (c: Credentials<N, D>)
    ensures c.inner == Device(deviceWith(cert, key, rune))
  {
    Credentials(Device(deviceWith(cert, key, rune)))
  }

  /** The scheduler handle, in either operating mode. */
  datatype UnifiedScheduler<U, A> = Unauthenticated(unauthenticated: U) | Authenticated(authenticated: A)

  /** A collaborator's upgraded device as new device credentials; its error unchanged. */
  function AsDevice<N, D>(r: Result<D, Error>): (out: Result<Credentials<N, D>, Error>)
    ensures out.Ok? <==> r.Ok?
    ensures r.Ok? ==> out.value.inner == Device(r.value)
    ensures r.Err? ==> out.error == r.error
  {
    match r
    case Ok(d) => Ok(Credentials(Device(d)))
    case Err(e) => Err(e)
  }

  /**
   * `Credentials::upgrade`: refused on `Nobody` before any collaborator is
   * involved; on `Device`, the device is upgraded with the scheduler in its
   * current mode and the signer, and the result wrapped as a new `Device`.
   */
  function Upgrade<N, D, U, A, S>(
    c: Credentials<N, D>,
    scheduler: UnifiedScheduler<U, A>,
    signer: S,
    viaUnauthenticated: (D, U, S) -> Result<D, Error>,
    viaAuthenticated: (D, A, S) -> Result<D, Error>
  ): (r: Result<Credentials<N, D>, Error>)
    ensures c.inner.Nobody? ==> r == Err(IsIdentityError("can not upgrade nobody credentials"))
    ensures r.Ok? ==> r.value.inner.Device?
    ensures c.inner.Device? && scheduler.Unauthenticated? ==>
      r == AsDevice(viaUnauthenticated(c.inner.device, scheduler.unauthenticated, signer))
    ensures c.inner.Device? && scheduler.Authenticated? ==>
      r == AsDevice(viaAuthenticated(c.inner.device, scheduler.authenticated, signer))
  {
    match c.inner
    case Nobody(_) => Err(IsIdentityError("can not upgrade nobody credentials"))
    case Device(creds) =>
      match scheduler
      case Unauthenticated(u) => AsDevice(viaUnauthenticated(creds, u, signer))
      case Authenticated(a) => AsDevice(viaAuthenticated(creds, a, signer))
  }

  /** Upgrading `Nobody` gives the same error whatever the scheduler, signer and upgrade routines: none is consulted. */
  lemma UpgradeNobodyConsultsNoOne<N, D, U, A, S>(
    c: Credentials<N, D>,
    scheduler: UnifiedScheduler<U, A>, signer: S,
    f: (D, U, S) -> Result<D, Error>, g: (D, A, S) -> Result<D, Error>,
    scheduler': UnifiedScheduler<U, A>, signer': S,
    f': (D, U, S) -> Result<D, Error>, g': (D, A, S) -> Result<D, Error>)
    requires c.inner.Nobody?
    ensures Upgrade(c, scheduler, signer, f, g) == Upgrade(c, scheduler', signer', f', g')
    ensures Upgrade(c, scheduler, signer, f, g).Err? && Upgrade(c, scheduler, signer, f, g).error.IsIdentityError?
  {
  }

  /** Upgrading a device passes the device guard afterwards, or fails with the collaborator's own error. */
  lemma UpgradeOutcome<N, D, U, A, S>(
    c: Credentials<N, D>, scheduler: UnifiedScheduler<U, A>, signer: S,
    f: (D, U, S) -> Result<D, Error>, g: (D, A, S) -> Result<D, Error>)
    requires c.EnsureDevice().Ok?
    ensures var r := Upgrade(c, scheduler, signer, f, g);
      && (r.Ok? ==> r.value.EnsureDevice().Ok?)
      && (r.Err? ==> r.error == match scheduler
            case Unauthenticated(u) => f(c.inner.device, u, signer).error
            case Authenticated(a) => g(c.inner.device, a, signer).error)
  {
  }

  /** `to_bytes`: refused on `Nobody`; the device's own bytes otherwise. */
  function ToBytes<N, D>(c: Credentials<N, D>, deviceToBytes: D -> Bytes): (r: Result<Bytes, Error>)
    ensures r.Ok? <==> c.inner.Device?
    ensures c.inner.Nobody? ==> r == Err(IsIdentityError("can not convert nobody into bytes"))
    ensures c.inner.Device? ==> r == Ok(deviceToBytes(c.inner.device))
  {
    match c.inner
    case Nobody(_) => Err(IsIdentityError("can not convert nobody into bytes"))
    case Device(d) => Ok(deviceToBytes(d))
  }

  /** Bytes of a device credential rebuild it, provided the library's byte form round-trips. */
  lemma ToBytesFromBytes<N, D>(c: Credentials<N, D>, deviceToBytes: D -> Bytes, deviceFromBytes: Bytes -> D)
    requires c.inner.Device?
    requires deviceFromBytes(deviceToBytes(c.inner.device)) == c.inner.device
    ensures ToBytes(c, deviceToBytes).Ok?
    ensures FromBytes(ToBytes(c, deviceToBytes).value, deviceFromBytes) == c
  {
  }

  /** `with_ca`: the same identity with a new CA certificate. */
  function WithCa<N, D>(c: Credentials<N, D>, ca: Bytes, nobodyWithCa: (N, Bytes) -> N, deviceWithCa: (D, Bytes) -> D): (r: Credentials<N, D>)
    ensures r.inner.Nobody? <==> c.inner.Nobody?
    ensures c.inner.Nobody? ==> r.inner.nobody == nobodyWithCa(c.inner.nobody, ca)
    ensures c.inner.Device? ==> r.inner.device == deviceWithCa(c.inner.device, ca)
  {
    match c.inner
    case Nobody(n) => Credentials(Nobody(nobodyWithCa(n, ca)))
    case Device(d) => Credentials(Device(deviceWithCa(d, ca)))
  }

  /** Attaching a CA changes neither guard's outcome. */
  lemma WithCaKeepsGuards<N, D>(c: Credentials<N, D>, ca: Bytes, nobodyWithCa: (N, Bytes) -> N, deviceWithCa: (D, Bytes) -> D)
    ensures WithCa(c, ca, nobodyWithCa, deviceWithCa).EnsureNobody() == c.EnsureNobody()
    ensures WithCa(c, ca, nobodyWithCa, deviceWithCa).EnsureDevice() == c.EnsureDevice()
  {
  }

  /** The constructors: `new` and `nobody_with` give `Nobody`; `from_path`, `from_bytes` and `from_parts` give `Device`. */
  lemma ConstructorsVariant<N, D>(
    defaultNobody: N, cert: Bytes, key: Bytes, nobodyWith: (Bytes, Bytes) -> N,
    path: string, deviceFromPath: string -> D, data: Bytes, deviceFromBytes: Bytes -> D,
    rune: string, deviceWith: (Bytes, Bytes, string) -> D)
    ensures New<N, D>(defaultNobody).EnsureNobody().Ok? && New<N, D>(defaultNobody).EnsureDevice().Err?
    ensures NobodyWith<N, D>(cert, key, nobodyWith).EnsureNobody().Ok?
    ensures NobodyWith<N, D>(cert, key, nobodyWith).EnsureDevice().Err?
    ensures FromPath<N, D>(path, deviceFromPath).EnsureDevice().Ok?
    ensures FromBytes<N, D>(data, deviceFromBytes).EnsureDevice().Ok?
    ensures FromParts<N, D>(cert, key, rune, deviceWith).EnsureDevice().Ok?
  {
  }
}
