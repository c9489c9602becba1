/** The class registry `classes` of gb.c: ordered port/platform profiles, each with the
    five templates that `finalise` expands. */
module Profiles {
  import opened Wrappers

  /** A `CLASS` record. `plat == None` is the C NULL platform, which matches any
      requested platform. The template fields stand for `cpp`, `include`, `com`, `as`
      and `ld`. */
  datatype Profile = Profile(
    port: string,
    plat: Option<string>,
    defaultPlat: string,
    preprocess: string,
    includes: string,
    compile: string,
    assemble: string,
    link: string)

  const Classes: seq<Profile> := [
    Profile("gbz80", Some("gb"), "gb",
      "%cpp% %cppdefault% -DGB=1 -DGAMEBOY=1 -DINT_16_BITS $1 $2 $3",
      "%includedefault%",
      "%com% %comdefault% $1 -o $3",
      "%as% -plosgff $1 $3 $2",
      "%ld% -n -- -z $1 -k%libdir%%port%/ -l%port%.lib "
        + "-k%libdir%%plat%/ -l%plat%.lib $3 %libdir%%plat%/crt0.o $2"),
    Profile("z80", Some("afghan"), "afghan",
      "%cpp% %cppdefault% $1 $2 $3",
      "%includedefault%",
      "%com% %comdefault% $1 $2 $3",
      "%as% -pog $1 $3 $2",
      "%ld% -n -- -i $1 -b_CODE=0x8100 -k%libdir%%port%/ -l%port%.lib "
        + "-k%libdir%%plat%/ -l%plat%.lib $3 %libdir%%plat%/crt0.o $2"),
    Profile("z80", None, "consolez80",
      "%cpp% %cppdefault% $1 $2 $3",
      "-I%includedir%/gbdk-lib",
      "%com% %comdefault% $1 $2 $3",
      "%as% -pog $1 $3 $2",
      "%ld% -n -- -i $1 -b_DATA=0x8000 -b_CODE=0x200 -k%libdir%%port%/ -l%port%.lib "
        + "-k%libdir%%plat%/ -l%plat%.lib $3 %libdir%%plat%/crt0.o $2")
  ]

  /** The test `setClass` applies to one class: the ports are equal and either both
      platforms are given and equal, or one of them is NULL. */
  predicate Accepts(c: Profile, port: string, plat: Option<string>) {
    c.port == port
    && ((plat.Some? && c.plat.Some? && c.plat.value == plat.value) || c.plat.None? || plat.None?)
  }

  /** The first class, in table order, that accepts the request. */
  function FirstMatch(cs: seq<Profile>, port: string, plat: Option<string>): (r: Option<nat>)
    ensures r.Some? ==> r.value < |cs| && Accepts(cs[r.value], port, plat)
    ensures r.Some? ==> forall j :: 0 <= j < r.value ==> !Accepts(cs[j], port, plat)
    ensures r.None? ==> forall j :: 0 <= j < |cs| ==> !Accepts(cs[j], port, plat)
  {
    if cs == [] then None
    else if Accepts(cs[0], port, plat) then Some(0)
    else match FirstMatch(cs[1..], port, plat)
      case None => None
      case Some(j) => Some(j + 1)
  }

  /** A port no class names is never matched, whatever platform is asked for. */
  lemma UnknownPortNeverMatches(port: string, plat: Option<string>)
    requires forall i :: 0 <= i < |Classes| ==> Classes[i].port != port
    ensures FirstMatch(Classes, port, plat) == None
  {
  }

  /** `-mz80/foo`: no class names platform `foo`, so the NULL-platform z80 class is taken. */
  lemma UnknownZ80PlatformFallsBack()
    ensures FirstMatch(Classes, "z80", Some("foo")) == Some(2)
  {
    assert !Accepts(Classes[0], "z80", Some("foo"));
    assert !Accepts(Classes[1], "z80", Some("foo"));
    assert Accepts(Classes[2], "z80", Some("foo"));
  }

  /** `-mgbz80/foo`: the only gbz80 class names platform `gb`, so nothing matches. */
  lemma UnknownGbz80PlatformFails()
    ensures FirstMatch(Classes, "gbz80", Some("foo")) == None
  {
  }

  /** `-mz80` with no platform: a NULL request accepts the first z80 class, `afghan`. */
  lemma Z80WithoutPlatformPicksFirst()
    ensures FirstMatch(Classes, "z80", None) == Some(1)
  {
  }

  /** Only a platform-less request, or a class with a NULL platform, can select a class
      whose platform differs from the requested one. */
  lemma MatchedPlatformAgrees(port: string, plat: Option<string>)
    requires FirstMatch(Classes, port, plat).Some?
    ensures var c := Classes[FirstMatch(Classes, port, plat).value];
      c.port == port && (plat.None? || c.plat.None? || c.plat == plat)
  {
  }
}
