/** The fixed tables of main.js: the names that open a link directly, the
    content shown in the modal, and the allow-list of clickable scene nodes. */
module Content {
  import opened Wrappers

  /** One entry of modelContent: a title, a text and, for some, a link. */
  datatype Entry = Entry(title: string, content: string, link: Option<string>)

  /** directLinks: clicking these names navigates without the modal. */
  const DIRECT_LINKS: map<string, string> := map["Scene" := "https://www.example.com"]

  const PORTFOLIO_URL: string := "https://www.behance.net/emreaydn37"

  /** modelContent: what the modal shows for each name. */
  const MODEL_CONTENT: map<string, Entry> := map[
    "Advertise" := Entry("Advertisement", "This is Advertise", Some(PORTFOLIO_URL)),
    "Project_1" := Entry("Project One", "This is Project one", Some(PORTFOLIO_URL)),
    "Project_2" := Entry("Project Two", "This is Project two", Some(PORTFOLIO_URL)),
    "Shoes" := Entry("About Me", ABOUT_ME, None)
  ]

  const ABOUT_ME: string :=
    "I am a Full stack Developer and 3D designer with a passion for creating immersive and visually stunning experiences. With a background in Software Engineering, I specialize in crafting detailed 3D models, animations, and interactive environments. My work is driven by a desire to push the boundaries of creativity and innovation, blending vision with technical expertise to bring ideas to life in the digital realm."

  /** intersectObjectsNames: the scene nodes the pointer can pick. */
  const INTERSECT_OBJECT_NAMES: seq<string> := ["Advertise", "Project_1", "Project_2", "Text002", "Shoes"]

  /** The name of the scene node that is the character. */
  const CHARACTER_NAME: string := "Shoes"

  /** directLinks[name] read as a condition: JavaScript takes a missing key
      and an empty URL alike as false. */
  function DirectLink(name: string): (r: Option<string>)
    ensures r.Some? <==> name in DIRECT_LINKS && DIRECT_LINKS[name] != ""
    ensures r.Some? ==> r.value == DIRECT_LINKS[name]
  {
    if name in DIRECT_LINKS && DIRECT_LINKS[name] != "" then Some(DIRECT_LINKS[name]) else None
  }

  /** modelContent[name]; every entry is an object, so present means true. */
  function Lookup(name: string): (r: Option<Entry>)
    ensures r.Some? <==> name in MODEL_CONTENT
    ensures r.Some? ==> r.value == MODEL_CONTENT[name]
  {
    if name in MODEL_CONTENT then Some(MODEL_CONTENT[name]) else None
  }

  /** content.link read as a condition: present and not empty. */
  predicate HasLink(e: Entry)
  {
    e.link.Some? && e.link.value != ""
  }
}
