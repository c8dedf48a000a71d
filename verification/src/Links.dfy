/** links_factory.py: turning what a body says into the link a resource is stored under. */
module Links {
  /** A url after urlsplit; `path` stands for path, query and fragment together. */
  datatype Url = Url(scheme: string, netloc: string, path: string)

  datatype Factory = Factory(scheme: string, endpoint: string)

  predicate Absolute(u: Url) {
    u.scheme != "" && u.netloc != ""
  }

  /** The path is absolute, or there is none. */
  predicate Rooted(path: string) {
    path == "" || path[0] in {'/', '?', '#'}
  }

  /** Schemes whose urls name a host, as urlparse has them. */
  const USES_NETLOC := {"ftp", "http", "gopher", "nntp", "telnet", "imap", "wais", "file", "mms", "https", "shttp",
                        "snews", "prospero", "rtsp", "rtspu", "rsync", "svn", "svn+ssh", "sftp", "nfs", "git",
                        "git+ssh"}

  /** urlunsplit puts a slash between the place of a host and a relative path. */
  function Slashed(path: string): (r: string)
    ensures Rooted(r) && (Rooted(path) ==> r == path)
  {
    if Rooted(path) then path else "/" + path
  }

  /** A link is absolute, and an absolute url with a proper path is its own link. */
  function GetResourceLink(f: Factory, u: Url, override: string): (link: Url)
    ensures f.scheme != "" && f.endpoint != "" ==> Absolute(link)
    ensures Absolute(u) && Rooted(u.path) ==> link == u
    ensures Absolute(link) ==> Rooted(link.path)
  {
    var scheme := if u.scheme != "" then u.scheme else f.scheme;
    var netloc := if u.netloc != "" then u.netloc else if override != "" then override else f.endpoint;
    Url(scheme, netloc, if netloc != "" || scheme in USES_NETLOC then Slashed(u.path) else u.path)
  }

  /** What a link is made of: each part comes from the url where it has one. */
  lemma LinkParts(f: Factory, u: Url, override: string)
    ensures var link := GetResourceLink(f, u, override);
            && (u.scheme != "" ==> link.scheme == u.scheme)
            && (u.scheme == "" ==> link.scheme == f.scheme)
            && (u.netloc != "" ==> link.netloc == u.netloc)
            && (u.netloc == "" && override != "" ==> link.netloc == override)
            && (u.netloc == "" && override == "" ==> link.netloc == f.endpoint)
            && (Rooted(u.path) ==> link.path == u.path)
            && (!Rooted(u.path) && link.netloc != "" ==> link.path == "/" + u.path)
  {
  }

  /** Resolving a link again, under whatever override, changes nothing. */
  lemma ResolvedStaysResolved(f: Factory, u: Url, override: string, later: string)
    requires f.scheme != "" && f.endpoint != ""
    ensures var link := GetResourceLink(f, u, override); GetResourceLink(f, link, later) == link
  {
  }
}
