/** POSIX path joining, as the resolver and the launcher entry use it to build
    candidate file names (`os.path.join` on a POSIX host, two components). */
module PosixPath {

  predicate IsAbsolute(p: string) {
    |p| > 0 && p[0] == '/'
  }

  predicate EndsWithSeparator(p: string) {
    |p| > 0 && p[|p| - 1] == '/'
  }

  /** Joins `b` onto `a`: an absolute `b` discards `a`; otherwise a single '/'
      is inserted unless `a` is empty or already ends in one. */
  function Join(a: string, b: string): (r: string)
    ensures IsAbsolute(b) ==> r == b
    ensures IsAbsolute(a) || IsAbsolute(b) ==> IsAbsolute(r)
  {
    if IsAbsolute(b) then b
    else if a == [] || EndsWithSeparator(a) then a + b
    else a + "/" + b
  }

  /** Under a directory that does not end in '/', a relative name lands exactly
      one separator below it. */
  lemma JoinRelative(dir: string, name: string)
    requires !IsAbsolute(name) && |dir| > 0 && !EndsWithSeparator(dir)
    ensures Join(dir, name) == dir + "/" + name
  {
  }
}
