/**
 * The default-filling half of config/config.go (`initializeConfig`, after
 * viper has unmarshalled the file): every field that is still zero receives
 * its default. Durations are `time.Duration` values in nanoseconds.
 */
module Config {
  import Paths

  /** `time.Hour` in nanoseconds. */
  const Hour: int := 3_600_000_000_000

  /** The configuration fields `initializeConfig` reads or writes. */
  datatype Settings = Settings(
    basePath: string,
    absolutePath: string,
    jwtExpire: int,
    signingKey: string,
    registerTypeName: string,
    registerExpiration: int,
    resetTypeName: string,
    resetExpiration: int,
    maxQueueSize: int,
    prometheusEnable: bool,
    gatewayAddr: string,
    intervalSec: int,
    httpPort: string,
    autoTLSEnable: bool,
    cacheDir: string)

  /** A string field: its default when empty. */
  function OrText(s: string, default: string): string {
    if s == "" then default else s
  }

  /** A numeric field: its default when zero. */
  function OrNumber(n: int, default: int): int {
    if n == 0 then default else n
  }

  /** The settings after `initializeConfig` in working directory `wd`. */
  function Defaulted(c: Settings, wd: string): Settings {
    var basePath := OrText(c.basePath, "files");
    Settings(
      basePath,
      Paths.Join(wd, basePath),
      OrNumber(c.jwtExpire, 2 * Hour),
      OrText(c.signingKey, "golang-service"),
      OrText(c.registerTypeName, "register"),
      OrNumber(c.registerExpiration, 2 * Hour),
      OrText(c.resetTypeName, "reset_password"),
      OrNumber(c.resetExpiration, 2 * Hour),
      OrNumber(c.maxQueueSize, 1024),
      c.prometheusEnable,
      if c.prometheusEnable then OrText(c.gatewayAddr, "http://localhost:9091") else c.gatewayAddr,
      if c.prometheusEnable then OrNumber(c.intervalSec, 15) else c.intervalSec,
      OrText(c.httpPort, "8080"),
      c.autoTLSEnable,
      if c.autoTLSEnable then OrText(c.cacheDir, "./tls_cache") else c.cacheDir)
  }

  /**
   * After defaulting no field the service depends on is zero: the base path,
   * the token settings, both verification-code kinds, the mail queue and the
   * port are all set, and the Prometheus and TLS-cache settings are set when
   * their feature is enabled. The absolute path is the base path under `wd`.
   */
  lemma DefaultedIsFilled(c: Settings, wd: string)
    ensures var d := Defaulted(c, wd);
      && d.basePath != "" && d.absolutePath == Paths.Join(wd, d.basePath)
      && d.jwtExpire != 0 && d.signingKey != ""
      && d.registerTypeName != "" && d.registerExpiration != 0
      && d.resetTypeName != "" && d.resetExpiration != 0
      && d.maxQueueSize != 0 && d.httpPort != ""
      && (d.prometheusEnable ==> d.gatewayAddr != "" && d.intervalSec != 0)
      && (d.autoTLSEnable ==> d.cacheDir != "")
  {
  }

  /**
   * A field that is already set keeps its value, the two switches are never
   * changed, and the feature defaults are not applied to a disabled feature.
   */
  lemma DefaultedKeepsSetFields(c: Settings, wd: string)
    ensures var d := Defaulted(c, wd);
      && (c.basePath != "" ==> d.basePath == c.basePath)
      && (c.jwtExpire != 0 ==> d.jwtExpire == c.jwtExpire)
      && (c.signingKey != "" ==> d.signingKey == c.signingKey)
      && (c.registerTypeName != "" ==> d.registerTypeName == c.registerTypeName)
      && (c.registerExpiration != 0 ==> d.registerExpiration == c.registerExpiration)
      && (c.resetTypeName != "" ==> d.resetTypeName == c.resetTypeName)
      && (c.resetExpiration != 0 ==> d.resetExpiration == c.resetExpiration)
      && (c.maxQueueSize != 0 ==> d.maxQueueSize == c.maxQueueSize)
      && (c.httpPort != "" ==> d.httpPort == c.httpPort)
      && d.prometheusEnable == c.prometheusEnable && d.autoTLSEnable == c.autoTLSEnable
      && (c.gatewayAddr != "" || !c.prometheusEnable ==> d.gatewayAddr == c.gatewayAddr)
      && (c.intervalSec != 0 || !c.prometheusEnable ==> d.intervalSec == c.intervalSec)
      && (c.cacheDir != "" || !c.autoTLSEnable ==> d.cacheDir == c.cacheDir)
  {
  }

  /** Defaulting twice is defaulting once: a filled configuration is a fixed point. */
  lemma DefaultedIdempotent(c: Settings, wd: string)
    ensures Defaulted(Defaulted(c, wd), wd) == Defaulted(c, wd)
  {
    DefaultedIsFilled(c, wd);
    DefaultedKeepsSetFields(Defaulted(c, wd), wd);
  }

  /** The configuration object, with the fields `initializeConfig` assigns in place. */
  class Config {
    var basePath: string
    var absolutePath: string
    var jwtExpire: int
    var signingKey: string
    var registerTypeName: string
    var registerExpiration: int
    var resetTypeName: string
    var resetExpiration: int
    var maxQueueSize: int
    var prometheusEnable: bool
    var gatewayAddr: string
    var intervalSec: int
    var httpPort: string
    var autoTLSEnable: bool
    var cacheDir: string

    /** The unmarshalled configuration. */
    constructor (s: Settings)
      ensures Snapshot() == s
    {
      basePath, absolutePath := s.basePath, s.absolutePath;
      jwtExpire, signingKey := s.jwtExpire, s.signingKey;
      registerTypeName, registerExpiration := s.registerTypeName, s.registerExpiration;
      resetTypeName, resetExpiration := s.resetTypeName, s.resetExpiration;
      maxQueueSize := s.maxQueueSize;
      prometheusEnable, gatewayAddr, intervalSec := s.prometheusEnable, s.gatewayAddr, s.intervalSec;
      httpPort := s.httpPort;
      autoTLSEnable, cacheDir := s.autoTLSEnable, s.cacheDir;
    }

    function Snapshot(): Settings
      reads this
    {
      Settings(basePath, absolutePath, jwtExpire, signingKey, registerTypeName, registerExpiration,
               resetTypeName, resetExpiration, maxQueueSize, prometheusEnable, gatewayAddr, intervalSec,
               httpPort, autoTLSEnable, cacheDir)
    }

    /**
     * `initializeConfig`: `wd` is what `os.Getwd` returned (its error is
     * ignored, leaving ""). Each step fills the zero fields of one section.
     */
    method InitializeConfig(wd: string)
      modifies this
      ensures Snapshot() == Defaulted(old(Snapshot()), wd)
    {
      DefaultFileService(wd);
      DefaultJWT();
      DefaultVerificationCodes();
      DefaultEmail();
      DefaultPrometheus();
      DefaultHTTP();
    }

    method DefaultFileService(wd: string)
      modifies this
      ensures var b := OrText(old(basePath), "files");
              Snapshot() == old(Snapshot()).(basePath := b, absolutePath := Paths.Join(wd, b))
    {
      if basePath == "" {
        basePath := "files";
      }
      absolutePath := Paths.Join(wd, basePath);
    }

    method DefaultJWT()
      modifies this
      ensures Snapshot() == old(Snapshot()).(jwtExpire := OrNumber(old(jwtExpire), 2 * Hour),
                                             signingKey := OrText(old(signingKey), "golang-service"))
    {
      if jwtExpire == 0 {
        jwtExpire := 2 * Hour;
      }
      if signingKey == "" {
        signingKey := "golang-service";
      }
    }

    /** The two verification-code sections, reached in the source through one pointer. */
    method DefaultVerificationCodes()
      modifies this
      ensures Snapshot() == old(Snapshot()).(
                registerTypeName := OrText(old(registerTypeName), "register"),
                registerExpiration := OrNumber(old(registerExpiration), 2 * Hour),
                resetTypeName := OrText(old(resetTypeName), "reset_password"),
                resetExpiration := OrNumber(old(resetExpiration), 2 * Hour))
    {
      DefaultRegisterCode();
      DefaultResetCode();
    }

    method DefaultRegisterCode()
      modifies this
      ensures Snapshot() == old(Snapshot()).(registerTypeName := OrText(old(registerTypeName), "register"),
                                             registerExpiration := OrNumber(old(registerExpiration), 2 * Hour))
    {
      if registerTypeName == "" {
        registerTypeName := "register";
      }
      if registerExpiration == 0 {
        registerExpiration := 2 * Hour;
      }
    }

    method DefaultResetCode()
      modifies this
      ensures Snapshot() == old(Snapshot()).(resetTypeName := OrText(old(resetTypeName), "reset_password"),
                                             resetExpiration := OrNumber(old(resetExpiration), 2 * Hour))
    {
      if resetTypeName == "" {
        resetTypeName := "reset_password";
      }
      if resetExpiration == 0 {
        resetExpiration := 2 * Hour;
      }
    }

    method DefaultEmail()
      modifies this
      ensures Snapshot() == old(Snapshot()).(maxQueueSize := OrNumber(old(maxQueueSize), 1024))
    {
      if maxQueueSize == 0 {
        maxQueueSize := 1024;
      }
    }

    /** Prometheus defaults, applied only when Prometheus is enabled. */
    method DefaultPrometheus()
      modifies this
      ensures old(prometheusEnable) ==>
                Snapshot() == old(Snapshot()).(gatewayAddr := OrText(old(gatewayAddr), "http://localhost:9091"),
                                               intervalSec := OrNumber(old(intervalSec), 15))
      ensures !old(prometheusEnable) ==> Snapshot() == old(Snapshot())
    {
      if prometheusEnable {
        if gatewayAddr == "" {
          gatewayAddr := "http://localhost:9091";
        }
        if intervalSec == 0 {
          intervalSec := 15;
        }
      }
    }

    /** The port default, and the certificate cache default only when AutoTLS is enabled. */
    method DefaultHTTP()
      modifies this
      ensures var withPort := old(Snapshot()).(httpPort := OrText(old(httpPort), "8080"));
              Snapshot() == if old(autoTLSEnable) then withPort.(cacheDir := OrText(old(cacheDir), "./tls_cache"))
                            else withPort
    {
      if httpPort == "" {
        httpPort := "8080";
      }
      if autoTLSEnable {
        if cacheDir == "" {
          cacheDir := "./tls_cache";
        }
      }
    }
  }
}
